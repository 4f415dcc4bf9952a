/**
 * The state handlers of the dashboard page: the task list and its update
 * and delete handlers, the study-session list and the scheduling handler,
 * the local override maps for saved flags and vote counts, and the share
 * link built for each social platform.
 *
 * The mock-data libraries the page reads are not part of this model: the
 * initial lists are constructor arguments, and what the saved-items and
 * voting libraries answer, `generateId()`, `new Date()`,
 * `window.location.origin` and `encodeURIComponent` are parameters.
 */
module Dashboard {
  import opened Wrappers
  import opened Text
  import opened Seqs

  // ---------------------------------------------------------------------
  // Tasks

  const Completed := "completed"

  datatype Task = Task(
    id: string,
    title: string,
    description: string,
    status: string,
    dueDate: int,
    completedAt: Option<int>,
    createdAt: int,
    updatedAt: int)

  /**
   * The partial record `taskData` handed to `handleUpdateTask`: `None` is a
   * key that is absent. `completedAt` is the one key the handler itself
   * writes, and it can also hold `undefined`: `Some(None)`.
   */
  datatype TaskData = TaskData(
    id: Option<string>,
    title: Option<string>,
    description: Option<string>,
    status: Option<string>,
    dueDate: Option<int>,
    completedAt: Option<Option<int>>,
    createdAt: Option<int>)

  /**
   * The two assignments to `taskData.completedAt` made for a task whose
   * status before the update is `oldStatus`. A patch without a status counts
   * as "not completed", so it clears the date of a completed task.
   */
  function WithCompletion(data: TaskData, oldStatus: string, now: int): (d: TaskData)
    ensures d.(completedAt := data.completedAt) == data
    ensures data.status == Some(Completed) && oldStatus != Completed ==> d.completedAt == Some(Some(now))
    ensures data.status != Some(Completed) && oldStatus == Completed ==> d.completedAt == Some(None)
    ensures (data.status == Some(Completed)) == (oldStatus == Completed) ==> d == data
  {
    var d1 := if data.status == Some(Completed) && oldStatus != Completed then data.(completedAt := Some(Some(now))) else data;
    if d1.status != Some(Completed) && oldStatus == Completed then d1.(completedAt := Some(None)) else d1
  }

  /** `{ ...task, ...taskData, updatedAt: new Date() }` */
  function MergeTask(t: Task, d: TaskData, now: int): Task {
    Task(
      d.id.GetOr(t.id),
      d.title.GetOr(t.title),
      d.description.GetOr(t.description),
      d.status.GetOr(t.status),
      d.dueDate.GetOr(t.dueDate),
      d.completedAt.GetOr(t.completedAt),
      d.createdAt.GetOr(t.createdAt),
      now)
  }

  /** The fields of `data` that the handler never writes agree with those of `d`. */
  predicate SamePatchBut(d: TaskData, data: TaskData) {
    d.(completedAt := data.completedAt) == data
  }

  /**
   * What a matching task becomes: every field `taskData` carries overrides
   * the task's own, `updatedAt` is `now`, a move to "completed" stamps
   * `completedAt` with `now` and a move away from it clears the date.
   */
  predicate Updated(t: Task, data: TaskData, now: int, u: Task) {
    && u.id == data.id.GetOr(t.id)
    && u.title == data.title.GetOr(t.title)
    && u.description == data.description.GetOr(t.description)
    && u.status == data.status.GetOr(t.status)
    && u.dueDate == data.dueDate.GetOr(t.dueDate)
    && u.createdAt == data.createdAt.GetOr(t.createdAt)
    && u.updatedAt == now
    && (data.status == Some(Completed) && t.status != Completed ==> u.completedAt == Some(now))
    && (data.status != Some(Completed) && t.status == Completed ==> u.completedAt == None)
  }

  /**
   * `tasks.map(...)` in `handleUpdateTask`, together with the `taskData`
   * the callbacks leave behind: each matching task changes the shared patch
   * before it is spread, so the patch is threaded from task to task.
   */
  function UpdateTasks(ts: seq<Task>, taskId: string, data: TaskData, now: int): (r: (seq<Task>, TaskData))
    decreases |ts|
  {
    if ts == [] then ([], data)
    else
      var (init, d) := UpdateTasks(ts[..|ts| - 1], taskId, data, now);
      var t := ts[|ts| - 1];
      if t.id == taskId then
        var d' := WithCompletion(d, t.status, now);
        (init + [MergeTask(t, d', now)], d')
      else
        (init + [t], d)
  }

  /**
   * The update keeps the length and order of the list, leaves every task
   * with another id as it was, and turns every task with the id into its
   * `Updated` form; the patch changes in `completedAt` at most.
   */
  lemma {:induction false} UpdateTasksEffect(ts: seq<Task>, taskId: string, data: TaskData, now: int)
    ensures |UpdateTasks(ts, taskId, data, now).0| == |ts|
    ensures SamePatchBut(UpdateTasks(ts, taskId, data, now).1, data)
    ensures forall i :: 0 <= i < |ts| && ts[i].id != taskId ==> UpdateTasks(ts, taskId, data, now).0[i] == ts[i]
    ensures forall i :: 0 <= i < |ts| && ts[i].id == taskId ==>
              Updated(ts[i], data, now, UpdateTasks(ts, taskId, data, now).0[i])
    decreases |ts|
  {
    if ts != [] {
      var init := ts[..|ts| - 1];
      UpdateTasksEffect(init, taskId, data, now);
      var (prefix, d) := UpdateTasks(init, taskId, data, now);
      var t := ts[|ts| - 1];
      var r := UpdateTasks(ts, taskId, data, now).0;
      forall i | 0 <= i < |init|
        ensures r[i] == prefix[i]
      {
      }
      if t.id == taskId {
        var d' := WithCompletion(d, t.status, now);
        assert r[|ts| - 1] == MergeTask(t, d', now);
      }
    }
  }

  /** No task with the id: nothing changes, not even the patch. */
  lemma {:induction false} UpdateTasksNoMatch(ts: seq<Task>, taskId: string, data: TaskData, now: int)
    requires forall i :: 0 <= i < |ts| ==> ts[i].id != taskId
    ensures UpdateTasks(ts, taskId, data, now) == (ts, data)
    decreases |ts|
  {
    if ts != [] {
      UpdateTasksNoMatch(ts[..|ts| - 1], taskId, data, now);
      assert ts[..|ts| - 1] + [ts[|ts| - 1]] == ts;
    }
  }

  /**
   * With exactly one task carrying the id (task ids are unique), that task
   * is merged with the patch as the completion rule leaves it, and that
   * patch is what the caller's `taskData` holds afterwards.
   */
  lemma {:induction false} UpdateTasksUnique(ts: seq<Task>, taskId: string, data: TaskData, now: int, k: nat)
    requires k < |ts| && ts[k].id == taskId
    requires forall i :: 0 <= i < |ts| && i != k ==> ts[i].id != taskId
    ensures UpdateTasks(ts, taskId, data, now) ==
              (ts[k := MergeTask(ts[k], WithCompletion(data, ts[k].status, now), now)], WithCompletion(data, ts[k].status, now))
    decreases |ts|
  {
    var init := ts[..|ts| - 1];
    if k == |ts| - 1 {
      UpdateTasksNoMatch(init, taskId, data, now);
      assert ts[k := MergeTask(ts[k], WithCompletion(data, ts[k].status, now), now)]
          == init + [MergeTask(ts[k], WithCompletion(data, ts[k].status, now), now)];
    } else {
      UpdateTasksUnique(init, taskId, data, now, k);
      assert ts[k := MergeTask(ts[k], WithCompletion(data, ts[k].status, now), now)]
          == init[k := MergeTask(ts[k], WithCompletion(data, ts[k].status, now), now)] + [ts[|ts| - 1]];
    }
  }

  /**
   * The `completedAt` of a task updated alone, in every case: stamped on a
   * move to "completed", cleared on a move away (also by a patch without a
   * status, which leaves the status "completed"), otherwise taken from the
   * patch when it has the key and kept when it does not.
   */
  lemma CompletedAtAfterUpdate(t: Task, data: TaskData, now: int)
    ensures var u := MergeTask(t, WithCompletion(data, t.status, now), now);
      && (data.status == Some(Completed) && t.status != Completed ==> u.completedAt == Some(now))
      && (data.status != Some(Completed) && t.status == Completed ==> u.completedAt == None)
      && (data.status == None && t.status == Completed ==> u.status == Completed && u.completedAt == None)
      && ((data.status == Some(Completed)) == (t.status == Completed) ==> u.completedAt == data.completedAt.GetOr(t.completedAt))
  {
  }

  /** `tasks.filter((task) => task.id !== taskId)` */
  function TasksWithout(ts: seq<Task>, taskId: string): (r: seq<Task>)
    ensures forall t :: t in r <==> t in ts && t.id != taskId
  {
    Filter(ts, (t: Task) => t.id != taskId)
  }

  // ---------------------------------------------------------------------
  // Study sessions

  const ScheduledBy := "user_1"

  datatype Session = Session(
    id: string,
    taskId: Option<string>,
    startTime: int,
    duration: int,
    userId: string,
    createdAt: int,
    updatedAt: int)

  /** The `sessionData` handed to `handleScheduleSession`; it may bring its own `id`. */
  datatype SessionData = SessionData(
    id: Option<string>,
    taskId: Option<string>,
    startTime: int,
    duration: int)

  /** `sessions.filter((session) => session.taskId !== taskId)` */
  function SessionsWithout(ss: seq<Session>, taskId: string): (r: seq<Session>)
    ensures forall s :: s in r <==> s in ss && s.taskId != Some(taskId)
  {
    Filter(ss, (s: Session) => s.taskId != Some(taskId))
  }

  /**
   * `{ id: generateId(), ...sessionData, userId: "user_1", createdAt, updatedAt }`:
   * the spread comes after the generated id, so an `id` in the data wins.
   */
  function NewSession(data: SessionData, freshId: string, now: int): (s: Session)
    ensures s.id == (if data.id.Some? then data.id.value else freshId)
    ensures s.userId == ScheduledBy && s.createdAt == now && s.updatedAt == now
    ensures s.taskId == data.taskId && s.startTime == data.startTime && s.duration == data.duration
  {
    Session(data.id.GetOr(freshId), data.taskId, data.startTime, data.duration, ScheduledBy, now, now)
  }

  /**
   * Deleting a task removes it and every session planned for it, keeps
   * all other tasks and sessions as often as they occurred, and keeps
   * their order.
   */
  lemma DeleteTaskSpec(ts: seq<Task>, ss: seq<Session>, taskId: string)
    ensures forall t :: t in TasksWithout(ts, taskId) ==> t.id != taskId
    ensures forall s :: s in SessionsWithout(ss, taskId) ==> s.taskId != Some(taskId)
    ensures forall t: Task :: t.id != taskId ==> multiset(TasksWithout(ts, taskId))[t] == multiset(ts)[t]
    ensures forall s: Session :: s.taskId != Some(taskId) ==> multiset(SessionsWithout(ss, taskId))[s] == multiset(ss)[s]
    ensures Subseq(TasksWithout(ts, taskId), ts) && Subseq(SessionsWithout(ss, taskId), ss)
  {
    FilterCounts(ts, (t: Task) => t.id != taskId);
    FilterCounts(ss, (s: Session) => s.taskId != Some(taskId));
  }

  /** Deleting an id no task or session refers to changes nothing. */
  lemma DeleteUnknownTask(ts: seq<Task>, ss: seq<Session>, taskId: string)
    requires forall t :: t in ts ==> t.id != taskId
    requires forall s :: s in ss ==> s.taskId != Some(taskId)
    ensures TasksWithout(ts, taskId) == ts && SessionsWithout(ss, taskId) == ss
  {
    FilterAllPass(ts, (t: Task) => t.id != taskId);
    FilterAllPass(ss, (s: Session) => s.taskId != Some(taskId));
  }

  /** Deleting twice is deleting once. */
  lemma DeleteTaskIdempotent(ts: seq<Task>, ss: seq<Session>, taskId: string)
    ensures TasksWithout(TasksWithout(ts, taskId), taskId) == TasksWithout(ts, taskId)
    ensures SessionsWithout(SessionsWithout(ss, taskId), taskId) == SessionsWithout(ss, taskId)
  {
    FilterIdempotent(ts, (t: Task) => t.id != taskId);
    FilterIdempotent(ss, (s: Session) => s.taskId != Some(taskId));
  }

  // ---------------------------------------------------------------------
  // Saved flags and vote counts

  /** `{ ...savedQuestions, [questionId]: !isSaved }` */
  function SavedAfter(saved: map<string, bool>, questionId: string, isSaved: bool): (m: map<string, bool>)
    ensures questionId in m && m[questionId] == !isSaved
    ensures forall q :: q != questionId ==> (q in m <==> q in saved) && (q in saved ==> m[q] == saved[q])
  {
    saved[questionId := !isSaved]
  }

  /** A local entry, when there is one, overrides the external answer. */
  function Displayed<V>(overrides: map<string, V>, questionId: string, external: V): (v: V)
    ensures questionId in overrides ==> v == overrides[questionId]
    ensures questionId !in overrides ==> v == external
  {
    if questionId in overrides then overrides[questionId] else external
  }

  /** `{ ...questionVotes, [questionId]: getVoteCount(questionId) }` */
  function VotesAfter(votes: map<string, int>, questionId: string, count: int): (m: map<string, int>)
    ensures questionId in m && m[questionId] == count
    ensures forall q :: q != questionId ==> (q in m <==> q in votes) && (q in votes ==> m[q] == votes[q])
  {
    votes[questionId := count]
  }

  /**
   * The saved-items store as the page uses it: `unsaveItem` removes a
   * saved question, `saveQuestion` adds an unsaved one.
   */
  function ToggledStore(store: set<string>, questionId: string): (r: set<string>)
    ensures questionId in r <==> questionId !in store
    ensures forall q :: q != questionId ==> (q in r <==> q in store)
  {
    if questionId in store then store - {questionId} else store + {questionId}
  }

  /**
   * Every local saved flag agrees with the store. The page starts with no
   * local flags, so this holds from the start.
   */
  ghost predicate Agrees(saved: map<string, bool>, store: set<string>) {
    forall q :: q in saved ==> saved[q] == (q in store)
  }

  /**
   * After `handleSaveQuestion` the flag shown for the question is the
   * opposite of the flag shown before, and it agrees with the store; the
   * flags shown for other questions do not change; and the local flags
   * still agree with the store.
   */
  lemma SaveQuestionDisplay(saved: map<string, bool>, store: set<string>, questionId: string, q: string)
    requires Agrees(saved, store)
    ensures Displayed(SavedAfter(saved, questionId, questionId in store), questionId, questionId in ToggledStore(store, questionId))
         == !Displayed(saved, questionId, questionId in store)
    ensures Displayed(SavedAfter(saved, questionId, questionId in store), questionId, questionId in ToggledStore(store, questionId))
         == (questionId in ToggledStore(store, questionId))
    ensures q != questionId ==>
              (Displayed(SavedAfter(saved, questionId, questionId in store), q, q in ToggledStore(store, questionId))
               == Displayed(saved, q, q in store))
    ensures Agrees(SavedAfter(saved, questionId, questionId in store), ToggledStore(store, questionId))
  {
  }

  /**
   * Saving twice in a row, each time against the store as it then is,
   * restores the store and the flag shown before the first save.
   */
  lemma SaveQuestionTwice(saved: map<string, bool>, store: set<string>, questionId: string)
    requires Agrees(saved, store)
    ensures ToggledStore(ToggledStore(store, questionId), questionId) == store
    ensures var once := SavedAfter(saved, questionId, questionId in store);
      Displayed(SavedAfter(once, questionId, questionId in ToggledStore(store, questionId)), questionId, questionId in store)
        == Displayed(saved, questionId, questionId in store)
  {
  }

  /** The page's initial empty override map agrees with any store. */
  lemma InitialSavedAgrees(store: set<string>)
    ensures Agrees(map[], store)
  {
  }

  /** The count shown after a vote is the library's fresh count; other counts do not change. */
  lemma VoteCountDisplay(votes: map<string, int>, questionId: string, count: int, q: string, external: int)
    ensures Displayed(VotesAfter(votes, questionId, count), questionId, external) == count
    ensures q != questionId ==> Displayed(VotesAfter(votes, questionId, count), q, external) == Displayed(votes, q, external)
  {
  }

  // ---------------------------------------------------------------------
  // Share links

  const FacebookPrefix := "https://www.facebook.com/sharer/sharer.php?u="
  const TwitterPrefix := "https://twitter.com/intent/tweet?text="
  const TwitterUrlKey := "&url="
  const LinkedInPrefix := "https://www.linkedin.com/sharing/share-offsite/?url="

  /** `${window.location.origin}/question/${questionId}` */
  function QuestionUrl(origin: string, questionId: string): string {
    origin + "/question/" + questionId
  }

  /**
   * The `shareUrl` of `handleShareToSocial`; `None` is the early `return`
   * of the `default` case, before any window is opened.
   */
  function ShareUrl(platform: string, questionId: string, questionTitle: string, origin: string,
                    encode: string -> string): (r: Option<string>)
    ensures r.Some? <==> platform == "facebook" || platform == "twitter" || platform == "linkedin"
    ensures platform == "facebook" ==> r == Some(FacebookPrefix + encode(QuestionUrl(origin, questionId)))
    ensures platform == "twitter" ==>
              r == Some(TwitterPrefix + encode(questionTitle) + TwitterUrlKey + encode(QuestionUrl(origin, questionId)))
    ensures platform == "linkedin" ==> r == Some(LinkedInPrefix + encode(QuestionUrl(origin, questionId)))
  {
    var url := QuestionUrl(origin, questionId);
    if platform == "facebook" then Some(FacebookPrefix + encode(url))
    else if platform == "twitter" then Some(TwitterPrefix + encode(questionTitle) + TwitterUrlKey + encode(url))
    else if platform == "linkedin" then Some(LinkedInPrefix + encode(url))
    else None
  }

  /** The platform a share link goes to, read off its fixed prefix. */
  function PlatformOf(u: string): Option<string> {
    if IsPrefix(FacebookPrefix, u) then Some("facebook")
    else if IsPrefix(TwitterPrefix, u) then Some("twitter")
    else if IsPrefix(LinkedInPrefix, u) then Some("linkedin")
    else None
  }

  lemma PrefixOfAppend(p: string, s: string)
    ensures IsPrefix(p, p + s)
  {
    assert (p + s)[..|p|] == p;
  }

  /** Two prefixes that differ at some position cannot both start a string. */
  lemma PrefixesDisagree(p: string, q: string, i: nat, u: string)
    requires i < |p| && i < |q| && p[i] != q[i]
    ensures !(IsPrefix(p, u) && IsPrefix(q, u))
  {
  }

  /** Each share link starts with its platform's prefix, and no other: the link determines the platform. */
  lemma {:induction false} ShareUrlPlatform(platform: string, questionId: string, questionTitle: string, origin: string,
                                            encode: string -> string)
    ensures ShareUrl(platform, questionId, questionTitle, origin, encode).Some? ==>
              PlatformOf(ShareUrl(platform, questionId, questionTitle, origin, encode).value) == Some(platform)
  {
    var r := ShareUrl(platform, questionId, questionTitle, origin, encode);
    if r.Some? {
      var u := r.value;
      var url := QuestionUrl(origin, questionId);
      if platform == "facebook" {
        PrefixOfAppend(FacebookPrefix, encode(url));
      } else if platform == "twitter" {
        assert u == TwitterPrefix + (encode(questionTitle) + TwitterUrlKey + encode(url));
        PrefixOfAppend(TwitterPrefix, encode(questionTitle) + TwitterUrlKey + encode(url));
        PrefixesDisagree(FacebookPrefix, TwitterPrefix, 8, u);
      } else {
        PrefixOfAppend(LinkedInPrefix, encode(url));
        PrefixesDisagree(FacebookPrefix, LinkedInPrefix, 12, u);
        PrefixesDisagree(TwitterPrefix, LinkedInPrefix, 8, u);
      }
    }
  }

  // ---------------------------------------------------------------------
  // The page's state slots and handlers

  class DashboardState {
    var tasks: seq<Task>
    var sessions: seq<Session>
    var savedQuestions: map<string, bool>
    var questionVotes: map<string, int>

    /** `useState(TASKS)`, `useState(SESSIONS)` and the two empty override maps. */
    constructor(initialTasks: seq<Task>, initialSessions: seq<Session>)
      ensures tasks == initialTasks && sessions == initialSessions
      ensures savedQuestions == map[] && questionVotes == map[]
    {
      tasks := initialTasks;
      sessions := initialSessions;
      savedQuestions := map[];
      questionVotes := map[];
    }

    /**
     * `handleUpdateTask`: maps over the tasks, rewriting the caller's
     * `taskData` as it meets each matching task; returns `taskData` as the
     * handler leaves it.
     */
    method UpdateTask(taskId: string, data: TaskData, now: int) returns (taskData: TaskData)
      modifies this
      ensures (tasks, taskData) == UpdateTasks(old(tasks), taskId, data, now)
      ensures sessions == old(sessions) && savedQuestions == old(savedQuestions) && questionVotes == old(questionVotes)
    {
      var ts := tasks;
      var updated: seq<Task> := [];
      taskData := data;
      var i := 0;
      while i < |ts|
        invariant 0 <= i <= |ts|
        invariant (updated, taskData) == UpdateTasks(ts[..i], taskId, data, now)
      {
        var task := ts[i];
        assert ts[..i + 1][..i] == ts[..i];
        if task.id == taskId {
          taskData := WithCompletion(taskData, task.status, now);
          updated := updated + [MergeTask(task, taskData, now)];
        } else {
          updated := updated + [task];
        }
        i := i + 1;
      }
      assert ts[..|ts|] == ts;
      tasks := updated;
    }

    /** `handleDeleteTask`: drops the task and, in cascade, its sessions. */
    method DeleteTask(taskId: string)
      modifies this
      ensures tasks == TasksWithout(old(tasks), taskId)
      ensures sessions == SessionsWithout(old(sessions), taskId)
      ensures savedQuestions == old(savedQuestions) && questionVotes == old(questionVotes)
    {
      tasks := TasksWithout(tasks, taskId);
      sessions := SessionsWithout(sessions, taskId);
    }

    /** `handleScheduleSession`: appends one new session. */
    method ScheduleSession(data: SessionData, freshId: string, now: int)
      modifies this
      ensures sessions == old(sessions) + [NewSession(data, freshId, now)]
      ensures tasks == old(tasks) && savedQuestions == old(savedQuestions) && questionVotes == old(questionVotes)
    {
      sessions := sessions + [NewSession(data, freshId, now)];
    }

    /** The local half of `handleSaveQuestion`; `isSaved` is what `isItemSaved` answered. */
    method SaveQuestion(questionId: string, isSaved: bool)
      modifies this
      ensures savedQuestions == SavedAfter(old(savedQuestions), questionId, isSaved)
      ensures tasks == old(tasks) && sessions == old(sessions) && questionVotes == old(questionVotes)
    {
      savedQuestions := savedQuestions[questionId := !isSaved];
    }

    /** The local half of `handleVote`; `count` is what `getVoteCount` answered after the vote. */
    method RecordVoteCount(questionId: string, count: int)
      modifies this
      ensures questionVotes == VotesAfter(old(questionVotes), questionId, count)
      ensures tasks == old(tasks) && sessions == old(sessions) && savedQuestions == old(savedQuestions)
    {
      questionVotes := questionVotes[questionId := count];
    }
  }
}
