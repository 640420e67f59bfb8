/** The replication queue merges tasks for the same file, and the name manager knows an update by
    its time alone. No update is lost by that as long as no server that comes or goes displaces
    the first candidate of a file with an assignment under way, no failing call gives up such an
    assignment for a file that has a backup, and no update falls into the second that the name
    manager has recorded: when everything has drained, every recorded backup has the primary's
    text. */
module Coalescing {
  import opened Placement
  import opened Wrappers

  /** The servers that are available after a step. */
  function ServersAfter(available: seq<bool>, step: Step): seq<bool> {
    match step
    case Register(i) => if i < |available| then available[i := true] else if i == |available| then available + [true] else available
    case Disconnect(d) => if d < |available| then available[d := false] else available
    case MarkDown(d) => if d < |available| then available[d := false] else available
    case _ => available
  }

  predicate InFlight(s: System, task: Task) {
    task in s.handlers || task in s.queue || (!s.worker.Idle? && s.worker.task == task)
  }

  /** An assignment under way that has a server to aim at goes on aiming at it. */
  ghost predicate KeepsAims(s: System, available: seq<bool>) {
    forall t: Task :: InFlight(s, t) && t.assign && Target(s.available, t.primary) >= 0 ==>
      Target(available, t.primary) == Target(s.available, t.primary)
  }

  /** The server is nobody's primary. Going down it may lose backups. */
  predicate NotPrimary(s: System, server: int) {
    && (forall file :: file in s.files ==> s.files[file].primary != server)
    && (forall c :: c in s.creations ==> c.primary != server)
  }

  /** A failure that does not give up an assignment for a file that has a backup already. */
  predicate FailsSafely(s: System) {
    !s.worker.Idle? && (!s.worker.task.assign || (s.worker.task.file in s.files && s.files[s.worker.task.file].backup < 0))
  }

  /** The steps of a run in which servers come and go without displacing a first candidate or
      taking a primary away, synchronisations and assignments fail only where that is safe, the
      clock that stamps a file's updates does not run back, and the name manager has not recorded
      the second of an update before it. Create calls may be refused or fail: a file is then
      created without a backup. */
  ghost predicate Calm(s: System, step: Step) {
    match step
    case Register(_) => KeepsAims(s, ServersAfter(s.available, step))
    case Disconnect(d) => NotPrimary(s, d) && KeepsAims(s, ServersAfter(s.available, step))
    case MarkDown(d) => NotPrimary(s, d) && KeepsAims(s, ServersAfter(s.available, step))
    case Fail => FailsSafely(s)
    case Write(i, file, _, now) =>
      && file in s.files && i == s.files[file].primary && (i, file) in s.store
      && now > 0 && now >= s.store[(i, file)].modified && now != s.files[file].modified
    case Read(i, file) => file in s.files && i == s.files[file].primary
    case _ => true
  }

  ghost predicate CalmRun(available: seq<bool>, steps: seq<Step>, states: seq<System>) {
    Run(available, steps, states) && forall k :: 0 <= k < |steps| ==> Calm(states[k], steps[k])
  }

  predicate Drained(s: System) {
    s.messages == multiset{} && s.handlers == multiset{} && s.queue == [] && s.worker.Idle?
  }

  function SyncTask(s: System, file: string): Task
    requires file in s.files
  {
    Task(file, s.files[file].primary, s.files[file].backup, false)
  }

  function AssignOf(s: System, file: string): Task
    requires file in s.files
  {
    Task(file, s.files[file].primary, -1, true)
  }

  function PrimaryKey(s: System, file: string): (int, string)
    requires file in s.files
  {
    (s.files[file].primary, file)
  }

  // ------------------------------------------------------------------ the invariant

  /** Tasks speak of the file's recorded primary; an assignment aims at the recorded backup, if
      any. A synchronisation may still be meant for a backup that has been dropped. */
  predicate TaskOk(s: System, task: Task) {
    && task.file in s.files && task.primary == s.files[task.file].primary
    && (if task.assign
        then task.backup == -1
             && (s.files[task.file].backup == -1 || s.files[task.file].backup == Target(s.available, task.primary))
        else task.backup >= 0)
  }

  predicate WorkerOk(s: System) {
    match s.worker
    case Idle => true
    case Taken(t) => TaskOk(s, t)
    case Captured(t, p) => TaskOk(s, t) && p == t.primary
    case Targeted(t, p, b) => TaskOk(s, t) && p == t.primary && AimOk(s, t, b)
    case Fetched(t, p, b, _) => TaskOk(s, t) && p == t.primary && AimOk(s, t, b)
    case Stored(t, p, b) => TaskOk(s, t) && p == t.primary && AimOk(s, t, b)
  }

  predicate AimOk(s: System, task: Task, target: int) {
    target >= 0 && target == if task.assign then Target(s.available, task.primary) else task.backup
  }

  ghost predicate TasksOk(s: System) {
    && (forall t :: t in s.handlers ==> TaskOk(s, t))
    && (forall k :: 0 <= k < |s.queue| ==> TaskOk(s, s.queue[k]))
    && WorkerOk(s)
  }

  /** Messages are about known files and never newer than the primary's copy. */
  ghost predicate MessagesOk(s: System) {
    forall m :: m in s.messages ==>
      m.file in s.files && PrimaryKey(s, m.file) in s.store && m.modified <= s.store[PrimaryKey(s, m.file)].modified
  }

  predicate Blank(s: System, server: int, file: string) {
    (server, file) in s.store && s.store[(server, file)].text == ""
  }

  ghost predicate CreationsOk(s: System) {
    forall c :: c in s.creations ==>
      && c.file != "" && Available(s.available, c.primary)
      && (c.file !in s.files ==> Blank(s, c.primary, c.file) && (c.backup >= 0 ==> Blank(s, c.backup, c.file)))
  }

  /** A message with the newest modification time has not been handled yet. */
  predicate News(s: System, file: string) {
    && file in s.files && PrimaryKey(s, file) in s.store
    && var newest := s.store[PrimaryKey(s, file)].modified;
       newest != 0 && s.files[file].modified != newest && Message(file, newest) in s.messages
  }

  /** The task is on its way to a fetch that is still to come. */
  predicate Waiting(s: System, task: Task) {
    || task in s.handlers || task in s.queue
    || ((s.worker.Taken? || s.worker.Captured? || s.worker.Targeted?) && s.worker.task == task)
  }

  /** What server `target` has, or is about to be given, is the primary's text. */
  predicate UpToDate(s: System, file: string, target: int) {
    && file in s.files && PrimaryKey(s, file) in s.store
    && var text := s.store[PrimaryKey(s, file)].text;
       if s.worker.Fetched? && s.worker.task.file == file && s.worker.target == target then s.worker.text == text
       else (target, file) in s.store && s.store[(target, file)].text == text
  }

  predicate Cared(s: System, file: string, target: int)
    requires file in s.files
  {
    || UpToDate(s, file, target)
    || News(s, file)
    || (target == s.files[file].backup && Waiting(s, SyncTask(s, file)))
    || (target == Target(s.available, s.files[file].primary) && Waiting(s, AssignOf(s, file)))
  }

  predicate InHand(s: System, file: string) {
    (s.worker.Fetched? || s.worker.Stored?) && s.worker.task.file == file && s.worker.task.assign
  }

  /** The recorded backup, and one about to be recorded, are up to date or cared for. */
  predicate FileOk(s: System, file: string)
    requires file in s.files
  {
    && file != "" && Available(s.available, s.files[file].primary)
    && (s.files[file].backup >= 0 ==> Cared(s, file, s.files[file].backup))
    && (InHand(s, file) ==> Cared(s, file, s.worker.target))
  }

  ghost predicate Tracked(s: System) {
    && Safe(s) && TasksOk(s) && MessagesOk(s) && CreationsOk(s)
    && forall file :: file in s.files ==> FileOk(s, file)
  }

  // ------------------------------------------------------------------- preservation

  /** Same servers, same primaries; a backup may go, and only appears where assignments aim. */
  ghost predicate Steady(s: System, s': System) {
    && s'.available == s.available
    && forall file :: file in s.files ==>
         && file in s'.files && s'.files[file].primary == s.files[file].primary
         && (s'.files[file].backup == s.files[file].backup || s'.files[file].backup == -1
             || (s.files[file].backup == -1 && s'.files[file].backup == Target(s.available, s.files[file].primary)))
  }

  lemma {:induction false} TaskStaysOk(s: System, s': System, task: Task)
    requires Steady(s, s') && TaskOk(s, task)
    ensures TaskOk(s', task)
  {
  }

  lemma {:induction false} TasksStayOk(s: System, s': System)
    requires Steady(s, s') && TasksOk(s)
    requires forall t :: t in s'.handlers ==> t in s.handlers || TaskOk(s', t)
    requires forall k :: 0 <= k < |s'.queue| ==> s'.queue[k] in s.queue || TaskOk(s', s'.queue[k])
    requires s'.worker == s.worker || WorkerOk(s')
    ensures TasksOk(s')
  {
    forall t | t in s'.handlers ensures TaskOk(s', t) {
      if t in s.handlers { TaskStaysOk(s, s', t); }
    }
    forall k | 0 <= k < |s'.queue| ensures TaskOk(s', s'.queue[k]) {
      if s'.queue[k] in s.queue {
        var j :| 0 <= j < |s.queue| && s.queue[j] == s'.queue[k];
        TaskStaysOk(s, s', s.queue[j]);
      }
    }
    if s'.worker == s.worker && !s.worker.Idle? {
      TaskStaysOk(s, s', s.worker.task);
    }
  }

  /** Steps that only add: copies under new keys, messages, tasks. */
  ghost predicate Adds(s: System, s': System) {
    && s'.available == s.available && s'.files == s.files && s'.worker == s.worker
    && (forall key :: key in s.store ==> key in s'.store && s'.store[key] == s.store[key])
    && (forall m :: m in s.messages ==> m in s'.messages)
    && (forall t :: t in s.handlers ==> t in s'.handlers || t in s'.queue)
    && (forall t :: t in s.queue ==> t in s'.queue)
  }

  lemma {:induction false} AddsKeepsFile(s: System, s': System, file: string)
    requires Adds(s, s') && file in s.files && FileOk(s, file)
    ensures FileOk(s', file)
  {
    assert forall t :: Waiting(s, t) ==> Waiting(s', t);
    assert forall target :: Cared(s, file, target) ==> Cared(s', file, target);
  }

  lemma {:induction false} AddsKeepsTracked(s: System, s': System)
    requires Tracked(s) && Adds(s, s') && Safe(s') && TasksOk(s') && MessagesOk(s') && CreationsOk(s')
    ensures Tracked(s')
  {
    forall file | file in s'.files ensures FileOk(s', file) {
      AddsKeepsFile(s, s', file);
    }
  }

  /** Everything but messages, tasks and creations follows from what a step adds. */
  lemma {:induction false} AddedKeepsTracked(s: System, s': System)
    requires Tracked(s) && Adds(s, s') && Safe(s')
    requires forall m :: m in s'.messages ==> m in s.messages || NewMessageOk(s, m)
    requires forall t :: t in s'.handlers ==> t in s.handlers || TaskOk(s, t)
    requires forall k :: 0 <= k < |s'.queue| ==> s'.queue[k] in s.queue || TaskOk(s, s'.queue[k])
    requires CreationsOk(s')
    ensures Tracked(s')
  {
    assert Steady(s, s');
    assert forall t :: TaskOk(s, t) ==> TaskOk(s', t);
    TasksStayOk(s, s');
    assert MessagesOk(s');
    AddsKeepsTracked(s, s');
  }

  predicate NewMessageOk(s: System, m: Message) {
    m.file in s.files && PrimaryKey(s, m.file) in s.store && m.modified <= s.store[PrimaryKey(s, m.file)].modified
  }

  lemma {:induction false} CreationsKept(s: System, s': System)
    requires CreationsOk(s) && s'.creations <= s.creations && s'.available == s.available && s'.files == s.files
    requires forall key :: key in s.store ==> key in s'.store && s'.store[key] == s.store[key]
    ensures CreationsOk(s')
  {
  }

  lemma {:induction false} CreateAdds(s: System, step: Step)
    requires Enabled(s, step) && (step.CreatePrimary? || step.CreateBackup? || step.AbandonCreate?)
    ensures var s' := Apply(s, step);
            Adds(s, s') && s'.messages == s.messages && s'.handlers == s.handlers && s'.queue == s.queue
  {
  }

  lemma {:induction false} CreateKeepsCreations(s: System, step: Step)
    requires CreationsOk(s) && Enabled(s, step) && (step.CreatePrimary? || step.CreateBackup? || step.AbandonCreate?)
    ensures CreationsOk(Apply(s, step))
  {
    var s' := Apply(s, step);
    forall c | c in s'.creations
      ensures c.file != "" && Available(s'.available, c.primary)
      ensures c.file !in s'.files ==> Blank(s', c.primary, c.file) && (c.backup >= 0 ==> Blank(s', c.backup, c.file))
    {
      if c !in s.creations && step.CreateBackup? {
        assert step.creation in s.creations;
      }
    }
  }

  lemma {:induction false} CreateKeepsTracked(s: System, step: Step)
    requires Tracked(s) && Enabled(s, step) && Safe(Apply(s, step))
    requires step.CreatePrimary? || step.CreateBackup? || step.AbandonCreate?
    ensures Tracked(Apply(s, step))
  {
    CreateAdds(s, step);
    CreateKeepsCreations(s, step);
    hide Apply, Safe, FileOk, TaskOk;
    AddedKeepsTracked(s, Apply(s, step));
  }

  lemma {:induction false} ReadKeepsTracked(s: System, step: Step)
    requires Tracked(s) && Enabled(s, step) && Calm(s, step) && Safe(Apply(s, step)) && step.Read?
    ensures Tracked(Apply(s, step))
  {
    var s' := Apply(s, step);
    var m := Message(step.file, s.store[(step.server, step.file)].modified);
    assert NewMessageOk(s, m);
    assert Adds(s, s');
    CreationsKept(s, s');
    hide Safe, FileOk, TaskOk;
    AddedKeepsTracked(s, s');
  }

  lemma {:induction false} AssignTaskOk(s: System, file: string)
    requires Safe(s) && AssignTask(file, s.files).Some?
    ensures TaskOk(s, AssignTask(file, s.files).value)
  {
    assert Placed(s, file, s.files[file].primary, s.files[file].backup);
  }

  lemma {:induction false} TryAssignAdds(s: System, file: string)
    ensures var s' := Apply(s, TryAssign(file));
            && Adds(s, s') && s'.messages == s.messages && s'.queue == s.queue && s'.creations == s.creations
            && s'.store == s.store
            && forall t :: t in s'.handlers ==> t in s.handlers || AssignTask(file, s.files) == Some(t)
  {
  }

  lemma {:induction false} TryAssignKeepsTracked(s: System, file: string)
    requires Tracked(s) && Safe(Apply(s, TryAssign(file)))
    ensures Tracked(Apply(s, TryAssign(file)))
  {
    TryAssignAdds(s, file);
    if AssignTask(file, s.files).Some? {
      AssignTaskOk(s, file);
    }
    hide Apply, AssignTask, Safe, FileOk, TaskOk;
    CreationsKept(s, Apply(s, TryAssign(file)));
    AddedKeepsTracked(s, Apply(s, TryAssign(file)));
  }

  lemma {:induction false} SelectChangesNothing(s: System, file: string)
    requires Tracked(s) && file in s.files
    ensures Apply(s, Select(file)) == s
  {
    assert FileOk(s, file);
    assert s.files[file := s.files[file]] == s.files;
  }

  lemma {:induction false} EnqueueKeepsTracked(s: System, task: Task)
    requires Tracked(s) && Enabled(s, Enqueue(task)) && Safe(Apply(s, Enqueue(task)))
    ensures Tracked(Apply(s, Enqueue(task)))
  {
    var s' := Apply(s, Enqueue(task));
    EnqueuedIsQueued(s, task);
    assert forall t :: t in s.handlers && t != task ==> t in s'.handlers;
    assert Adds(s, s');
    CreationsKept(s, s');
    AddedKeepsTracked(s, s');
  }

  /** Merging keeps the task: what it is merged with is the same task. */
  lemma {:induction false} EnqueuedIsQueued(s: System, task: Task)
    requires TasksOk(s) && task in s.handlers
    requires forall file :: file in s.files ==> FileOk(s, file)
    ensures task in Scheduled(s.queue, task)
    ensures forall t :: t in s.queue ==> t in Scheduled(s.queue, task)
    ensures forall k :: 0 <= k < |Scheduled(s.queue, task)| ==> Scheduled(s.queue, task)[k] in s.queue || Scheduled(s.queue, task)[k] == task
  {
    assert TaskOk(s, task) && FileOk(s, task.file);
    assert Schedulable(task);
    if k :| 0 <= k < |s.queue| && Covers(s.queue[k], task) {
      assert TaskOk(s, s.queue[k]);
      assert s.queue[k] == task;
    } else {
      var queue' := Scheduled(s.queue, task);
      assert queue' == s.queue + [task];
      assert queue'[|s.queue|] == task;
      assert forall k :: 0 <= k < |s.queue| ==> queue'[k] == s.queue[k];
    }
  }

  // ------------------------------------------------------ steps on a file or the worker

  lemma {:induction false} WriteKeepsOthers(s: System, step: Step, file: string)
    requires Tracked(s) && Enabled(s, step) && Calm(s, step) && step.Write?
    requires file in s.files && file != step.file
    ensures FileOk(Apply(s, step), file)
  {
    var s' := Apply(s, step);
    assert FileOk(s, file);
    assert forall t :: Waiting(s, t) ==> Waiting(s', t);
    assert News(s, file) ==> News(s', file);
    assert forall target :: UpToDate(s, file, target) ==> UpToDate(s', file, target);
  }

  lemma {:induction false} WriteIsNews(s: System, step: Step)
    requires Tracked(s) && Enabled(s, step) && Calm(s, step) && step.Write?
    ensures FileOk(Apply(s, step), step.file)
  {
    assert FileOk(s, step.file);
    assert News(Apply(s, step), step.file);
  }

  lemma {:induction false} WriteKeepsRest(s: System, step: Step)
    requires Tracked(s) && Enabled(s, step) && Calm(s, step) && step.Write?
    ensures TasksOk(Apply(s, step)) && MessagesOk(Apply(s, step)) && CreationsOk(Apply(s, step))
  {
    var s' := Apply(s, step);
    assert Steady(s, s');
    TasksStayOk(s, s');
    forall m | m in s'.messages
      ensures m.file in s'.files && PrimaryKey(s', m.file) in s'.store
      ensures m.modified <= s'.store[PrimaryKey(s', m.file)].modified
    {
      if m in s.messages {
        assert m.modified <= s.store[PrimaryKey(s, m.file)].modified;
      }
    }
  }

  lemma {:induction false} WriteKeepsTracked(s: System, step: Step)
    requires Tracked(s) && Enabled(s, step) && Calm(s, step) && step.Write? && Safe(Apply(s, step))
    ensures Tracked(Apply(s, step))
  {
    WriteKeepsRest(s, step);
    forall file | file in Apply(s, step).files ensures FileOk(Apply(s, step), file) {
      if file == step.file {
        WriteIsNews(s, step);
      } else {
        WriteKeepsOthers(s, step, file);
      }
    }
  }

  lemma {:induction false} FinishKeepsFile(s: System, c: Creation, now: int, file: string)
    requires Tracked(s) && c in s.creations && file in s.files
    ensures file in Apply(s, FinishCreate(c, now)).files && FileOk(Apply(s, FinishCreate(c, now)), file)
  {
    var s' := Apply(s, FinishCreate(c, now));
    assert FileOk(s, file);
    assert s' == s.(files := s'.files, creations := s'.creations) && file in s'.files && s'.files[file] == s.files[file];
    hide Apply, Safe, Target;
    assert forall t :: Waiting(s, t) ==> Waiting(s', t);
    assert News(s, file) ==> News(s', file);
    assert forall target :: UpToDate(s, file, target) ==> UpToDate(s', file, target);
  }

  lemma {:induction false} FinishedIsOk(s: System, c: Creation, now: int)
    requires Tracked(s) && c in s.creations && c.file !in s.files
    ensures c.file in Apply(s, FinishCreate(c, now)).files && FileOk(Apply(s, FinishCreate(c, now)), c.file)
  {
    assert s.worker.Idle? || s.worker.task.file in s.files;
    assert c.backup < 0 || UpToDate(Apply(s, FinishCreate(c, now)), c.file, c.backup);
  }

  lemma {:induction false} SteadyKeepsMessages(s: System, s': System)
    requires MessagesOk(s) && Steady(s, s') && s'.messages == s.messages && s'.store == s.store
    ensures MessagesOk(s')
  {
    forall m | m in s'.messages
      ensures m.file in s'.files && PrimaryKey(s', m.file) in s'.store
      ensures m.modified <= s'.store[PrimaryKey(s', m.file)].modified
    {
      assert PrimaryKey(s', m.file) == PrimaryKey(s, m.file);
    }
  }

  lemma {:induction false} FinishIsSteady(s: System, c: Creation, now: int)
    requires c in s.creations
    ensures var s' := Apply(s, FinishCreate(c, now));
            && Steady(s, s') && s' == s.(files := s'.files, creations := s.creations - {c})
            && forall file :: file in s'.files ==> file in s.files || file == c.file
  {
  }

  lemma {:induction false} FinishKeepsCreations(s: System, c: Creation, now: int)
    requires CreationsOk(s) && c in s.creations
    ensures CreationsOk(Apply(s, FinishCreate(c, now)))
  {
  }

  lemma {:induction false} FinishKeepsRest(s: System, c: Creation, now: int)
    requires Tracked(s) && c in s.creations
    ensures var s' := Apply(s, FinishCreate(c, now));
            && TasksOk(s') && MessagesOk(s') && CreationsOk(s')
            && forall file :: file in s'.files ==> file in s.files || file == c.file
  {
    FinishIsSteady(s, c, now);
    FinishKeepsCreations(s, c, now);
    hide Apply, MessagesOk, CreationsOk, FileOk, Safe, Steady, TaskOk;
    SteadyKeepsMessages(s, Apply(s, FinishCreate(c, now)));
    TasksStayOk(s, Apply(s, FinishCreate(c, now)));
  }

  lemma {:induction false} FinishKeepsTracked(s: System, c: Creation, now: int)
    requires Tracked(s) && c in s.creations && Safe(Apply(s, FinishCreate(c, now)))
    ensures Tracked(Apply(s, FinishCreate(c, now)))
  {
    FinishKeepsRest(s, c, now);
    hide Apply, TasksOk, MessagesOk, CreationsOk, FileOk, Safe;
    forall file | file in Apply(s, FinishCreate(c, now)).files ensures FileOk(Apply(s, FinishCreate(c, now)), file) {
      if file in s.files {
        FinishKeepsFile(s, c, now, file);
      } else {
        FinishedIsOk(s, c, now);
      }
    }
  }

  lemma {:induction false} ReceiveKeepsOthers(s: System, message: Message, file: string)
    requires Tracked(s) && message in s.messages && file in s.files && file != message.file
    ensures FileOk(Received(s, message), file)
  {
    var s' := Received(s, message);
    assert FileOk(s, file);
    assert forall t :: Waiting(s, t) ==> Waiting(s', t);
    assert News(s, file) ==> News(s', file);
    assert forall target :: UpToDate(s, file, target) ==> UpToDate(s', file, target);
  }

  /** Handling the newest message leaves a task behind; handling another one leaves that one. */
  lemma {:induction false} ReceiveKeepsNews(s: System, message: Message)
    requires Tracked(s) && message in s.messages && News(s, message.file)
    ensures var s', file := Received(s, message), message.file;
            || News(s', file)
            || (s.files[file].backup >= 0 && Waiting(s', SyncTask(s', file)))
            || (s.files[file].backup < 0
                && (Target(s.available, s.files[file].primary) >= 0 ==> Waiting(s', AssignOf(s', file))))
  {
    var s', file := Received(s, message), message.file;
    var newest := s.store[PrimaryKey(s, file)].modified;
    assert FileOk(s, file) && Placed(s, file, s.files[file].primary, s.files[file].backup);
    var task := UpdateTask(file, s.files[file], message.modified, s.available);
    if message.modified == newest {
      assert task.Some? ==> task.value in s'.handlers;
    } else {
      assert Message(file, newest) in s'.messages;
    }
  }

  lemma {:induction false} ReceiveKeepsRestOfCare(s: System, message: Message)
    requires message in s.messages && message.file in s.files
    ensures var s', file := Received(s, message), message.file;
            && file in s'.files && s'.files[file].backup == s.files[file].backup && s'.available == s.available
            && SyncTask(s', file) == SyncTask(s, file) && AssignOf(s', file) == AssignOf(s, file)
            && s'.files[file].primary == s.files[file].primary
            && (forall target :: UpToDate(s, file, target) ==> UpToDate(s', file, target))
            && (forall t :: Waiting(s, t) ==> Waiting(s', t))
  {
  }

  lemma {:induction false} ReceiveKeepsCare(s: System, message: Message, target: int)
    requires Tracked(s) && message in s.messages && message.file in s.files
    requires Cared(s, message.file, target) && target >= 0
    requires target == s.files[message.file].backup
             || (target == Target(s.available, s.files[message.file].primary)
                 && (s.files[message.file].backup == -1 || s.files[message.file].backup == target))
    ensures Cared(Received(s, message), message.file, target)
  {
    hide Received, Target, UpToDate, News, Waiting, Tracked;
    ReceiveKeepsRestOfCare(s, message);
    if News(s, message.file) {
      ReceiveKeepsNews(s, message);
    }
  }

  lemma {:induction false} ReceiveKeepsFile(s: System, message: Message)
    requires Tracked(s) && message in s.messages
    ensures message.file in s.files && FileOk(Received(s, message), message.file)
  {
    var file := message.file;
    assert file in s.files && FileOk(s, file) && Placed(s, file, s.files[file].primary, s.files[file].backup);
    if s.files[file].backup >= 0 {
      ReceiveKeepsCare(s, message, s.files[file].backup);
    }
    if InHand(s, file) {
      assert TaskOk(s, s.worker.task) && AimOk(s, s.worker.task, s.worker.target);
      ReceiveKeepsCare(s, message, s.worker.target);
    }
  }

  lemma {:induction false} ReceiveKeepsRest(s: System, message: Message)
    requires Tracked(s) && message in s.messages
    ensures TasksOk(Received(s, message)) && MessagesOk(Received(s, message)) && CreationsOk(Received(s, message))
  {
    var s', file := Received(s, message), message.file;
    assert file in s.files && Placed(s, file, s.files[file].primary, s.files[file].backup);
    assert Steady(s, s');
    var task := UpdateTask(file, s.files[file], message.modified, s.available);
    assert task.Some? ==> TaskOk(s', task.value);
    TasksStayOk(s, s');
    forall m | m in s'.messages
      ensures m.file in s'.files && PrimaryKey(s', m.file) in s'.store
      ensures m.modified <= s'.store[PrimaryKey(s', m.file)].modified
    {
      assert m in s.messages;
    }
  }

  lemma {:induction false} ReceiveKeepsTracked(s: System, message: Message)
    requires Tracked(s) && message in s.messages && Safe(Received(s, message))
    ensures Tracked(Received(s, message))
  {
    ReceiveKeepsRest(s, message);
    ReceiveKeepsFile(s, message);
    forall file | file in Received(s, message).files ensures FileOk(Received(s, message), file) {
      if file != message.file {
        ReceiveKeepsOthers(s, message, file);
      }
    }
  }

  /** Steps that only move the worker's task along before a fetch. */
  lemma {:induction false} WorkerMovesOn(s: System, step: Step)
    requires Tracked(s) && Enabled(s, step) && (step.Take? || step.Capture? || step.Aim?)
    ensures var s' := Apply(s, step);
            && WorkerOk(s') && s'.available == s.available && s'.files == s.files && s'.store == s.store
            && s'.messages == s.messages && s'.handlers == s.handlers && s'.creations == s.creations
            && !s'.worker.Fetched? && !s'.worker.Stored?
  {
    if step.Take? {
      assert TaskOk(s, s.queue[0]);
    } else {
      assert FileOk(s, s.worker.task.file);
    }
  }

  lemma {:induction false} MovedTaskStillWaits(s: System, step: Step, file: string)
    requires Tracked(s) && Enabled(s, step) && (step.Take? || step.Capture? || step.Aim?) && file in s.files
    ensures var s' := Apply(s, step);
            && (Waiting(s, SyncTask(s, file)) ==> Waiting(s', SyncTask(s, file)))
            && (Waiting(s, AssignOf(s, file)) && Target(s.available, s.files[file].primary) >= 0 ==> Waiting(s', AssignOf(s, file)))
  {
    assert FileOk(s, file);
    if step.Take? {
      assert s.queue == [s.queue[0]] + s.queue[1..];
    }
  }

  lemma {:induction false} MoveKeepsFile(s: System, step: Step, file: string)
    requires Tracked(s) && Enabled(s, step) && (step.Take? || step.Capture? || step.Aim?) && file in s.files
    requires !s.worker.Fetched? && !s.worker.Stored?
    ensures file in Apply(s, step).files && FileOk(Apply(s, step), file)
  {
    var s' := Apply(s, step);
    assert FileOk(s, file);
    WorkerMovesOn(s, step);
    MovedTaskStillWaits(s, step, file);
    hide Apply, Enabled, Waiting, Target, TaskOk, Safe, MessagesOk, CreationsOk;
    assert News(s, file) ==> News(s', file);
    assert forall target :: UpToDate(s, file, target) ==> UpToDate(s', file, target);
  }

  lemma {:induction false} MoveShortensQueue(s: System, step: Step)
    requires Enabled(s, step) && (step.Take? || step.Capture? || step.Aim?)
    ensures forall t :: t in Apply(s, step).queue ==> t in s.queue
  {
  }

  /** The worker's task may change; everything else stays, and the queue gets no new task. */
  ghost predicate WorkerMoved(s: System, s': System) {
    && s' == s.(queue := s'.queue, worker := s'.worker)
    && WorkerOk(s') && forall t :: t in s'.queue ==> t in s.queue
  }

  lemma {:induction false} MovedKeepsTasks(s: System, s': System)
    requires TasksOk(s) && MessagesOk(s) && CreationsOk(s) && WorkerMoved(s, s')
    ensures TasksOk(s') && MessagesOk(s') && CreationsOk(s')
  {
    assert Steady(s, s');
    hide TaskOk, WorkerOk;
    TasksStayOk(s, s');
  }

  lemma {:induction false} MoveKeepsTasks(s: System, step: Step)
    requires Tracked(s) && Enabled(s, step) && (step.Take? || step.Capture? || step.Aim?)
    ensures TasksOk(Apply(s, step)) && MessagesOk(Apply(s, step)) && CreationsOk(Apply(s, step))
  {
    WorkerMovesOn(s, step);
    MoveShortensQueue(s, step);
    hide Apply, Enabled, Safe, FileOk, TaskOk, WorkerOk, TasksOk, MessagesOk, CreationsOk;
    assert WorkerMoved(s, Apply(s, step));
    MovedKeepsTasks(s, Apply(s, step));
  }

  lemma {:induction false} MoveKeepsTracked(s: System, step: Step)
    requires Tracked(s) && Enabled(s, step) && (step.Take? || step.Capture? || step.Aim?) && Safe(Apply(s, step))
    ensures Tracked(Apply(s, step))
  {
    MoveKeepsTasks(s, step);
    WorkerMovesOn(s, step);
    hide TasksOk, MessagesOk, CreationsOk, Safe, FileOk;
    forall file | file in Apply(s, step).files ensures FileOk(Apply(s, step), file) {
      MoveKeepsFile(s, step, file);
    }
  }

  lemma {:induction false} FetchKeepsFile(s: System, file: string)
    requires Tracked(s) && Enabled(s, Fetch) && file in s.files
    ensures FileOk(Apply(s, Fetch), file)
  {
    var s' := Apply(s, Fetch);
    assert FileOk(s, file) && TaskOk(s, s.worker.task) && AimOk(s, s.worker.task, s.worker.target);
    assert Placed(s, file, s.files[file].primary, s.files[file].backup);
    assert News(s, file) ==> News(s', file);
    if file == s.worker.task.file {
      assert UpToDate(s', file, s.worker.target);
    } else {
      assert forall target :: UpToDate(s, file, target) ==> UpToDate(s', file, target);
    }
  }

  lemma {:induction false} FetchKeepsRest(s: System)
    requires Tracked(s) && Enabled(s, Fetch)
    ensures TasksOk(Apply(s, Fetch)) && MessagesOk(Apply(s, Fetch)) && CreationsOk(Apply(s, Fetch))
  {
    var s' := Apply(s, Fetch);
    assert Steady(s, s');
    TasksStayOk(s, s');
    assert TaskOk(s, s.worker.task);
    hide TasksOk, TaskOk, Safe, FileOk;
    forall m | m in s'.messages
      ensures m.file in s'.files && PrimaryKey(s', m.file) in s'.store
      ensures m.modified <= s'.store[PrimaryKey(s', m.file)].modified
    {
      assert m in s.messages || m == Message(s.worker.task.file, s.store[(s.worker.primary, s.worker.task.file)].modified);
    }
  }

  lemma {:induction false} FetchKeepsTracked(s: System)
    requires Tracked(s) && Enabled(s, Fetch) && Safe(Apply(s, Fetch))
    ensures Tracked(Apply(s, Fetch))
  {
    FetchKeepsRest(s);
    assert Apply(s, Fetch).files == s.files;
    hide TasksOk, MessagesOk, CreationsOk, Safe, FileOk;
    forall file | file in Apply(s, Fetch).files ensures FileOk(Apply(s, Fetch), file) {
      FetchKeepsFile(s, file);
    }
  }

  lemma {:induction false} SaveKeepsFile(s: System, now: int, file: string)
    requires Tracked(s) && s.worker.Fetched? && file in s.files
    ensures FileOk(SavedBy(s, now), file)
  {
    var s' := SavedBy(s, now);
    assert FileOk(s, file) && TaskOk(s, s.worker.task) && AimOk(s, s.worker.task, s.worker.target);
    assert Placed(s, file, s.files[file].primary, s.files[file].backup);
    assert PrimaryKey(s, file) != (s.worker.target, s.worker.task.file);
    assert News(s, file) ==> News(s', file);
    assert forall target :: UpToDate(s, file, target) ==> UpToDate(s', file, target);
  }

  lemma {:induction false} SaveKeepsTracked(s: System, now: int)
    requires Tracked(s) && s.worker.Fetched? && Safe(SavedBy(s, now))
    ensures Tracked(SavedBy(s, now))
  {
    var s' := SavedBy(s, now);
    assert Steady(s, s') && WorkerOk(s');
    TasksStayOk(s, s');
    assert TaskOk(s, s.worker.task);
    forall m | m in s'.messages
      ensures m.file in s'.files && PrimaryKey(s', m.file) in s'.store
      ensures m.modified <= s'.store[PrimaryKey(s', m.file)].modified
    {
      assert PrimaryKey(s, m.file) != (s.worker.target, s.worker.task.file);
    }
    forall file | file in s'.files ensures FileOk(s', file) {
      SaveKeepsFile(s, now, file);
    }
  }

  lemma {:induction false} FinaliseKeepsFile(s: System, file: string)
    requires Tracked(s) && s.worker.Stored? && file in s.files
    ensures FileOk(Apply(s, Finalise), file)
  {
    var s' := Apply(s, Finalise);
    assert FileOk(s, file) && TaskOk(s, s.worker.task) && AimOk(s, s.worker.task, s.worker.target);
    assert News(s, file) ==> News(s', file);
    assert forall t :: Waiting(s, t) ==> Waiting(s', t);
    assert forall target :: UpToDate(s, file, target) ==> UpToDate(s', file, target);
  }

  lemma {:induction false} FinaliseIsSteady(s: System)
    requires Tracked(s) && s.worker.Stored?
    ensures var s' := Apply(s, Finalise);
            Steady(s, s') && s' == s.(files := s'.files, worker := Idle) && forall file :: file in s'.files ==> file in s.files
  {
    assert TaskOk(s, s.worker.task) && AimOk(s, s.worker.task, s.worker.target);
  }

  lemma {:induction false} SteadyKeepsRest(s: System, s': System)
    requires TasksOk(s) && MessagesOk(s) && CreationsOk(s)
    requires Steady(s, s') && s' == s.(files := s'.files, worker := Idle)
    requires forall file :: file in s'.files ==> file in s.files
    ensures TasksOk(s') && MessagesOk(s') && CreationsOk(s')
  {
    TasksStayOk(s, s');
    hide TasksOk;
    SteadyKeepsMessages(s, s');
  }

  lemma {:induction false} FinaliseKeepsRest(s: System)
    requires Tracked(s) && s.worker.Stored?
    ensures TasksOk(Apply(s, Finalise)) && MessagesOk(Apply(s, Finalise)) && CreationsOk(Apply(s, Finalise))
    ensures forall file :: file in Apply(s, Finalise).files ==> file in s.files
  {
    FinaliseIsSteady(s);
    hide Apply, Safe, FileOk, TasksOk, MessagesOk, CreationsOk, Steady;
    SteadyKeepsRest(s, Apply(s, Finalise));
  }

  lemma {:induction false} FinaliseKeepsTracked(s: System)
    requires Tracked(s) && s.worker.Stored? && Safe(Apply(s, Finalise))
    ensures Tracked(Apply(s, Finalise))
  {
    FinaliseKeepsRest(s);
    hide TasksOk, MessagesOk, CreationsOk, Safe, FileOk;
    forall file | file in Apply(s, Finalise).files ensures FileOk(Apply(s, Finalise), file) {
      FinaliseKeepsFile(s, file);
    }
  }

  lemma {:induction false} FailChanges(s: System)
    requires Enabled(s, Fail)
    ensures var s' := Apply(s, Fail);
            && s' == s.(files := s'.files, worker := Idle)
            && (forall file :: file in s'.files <==> file in s.files)
            && forall file :: file in s.files ==>
                 if file == s.worker.task.file && !s.worker.task.assign && s.worker.target == s.files[file].backup
                 then s'.files[file] == s.files[file].(backup := -1) else s'.files[file] == s.files[file]
  {
  }

  lemma {:induction false} FailKeepsFile(s: System, file: string)
    requires Tracked(s) && Enabled(s, Fail) && FailsSafely(s) && file in s.files
    ensures file in Apply(s, Fail).files && FileOk(Apply(s, Fail), file)
  {
    var s' := Apply(s, Fail);
    FailChanges(s);
    hide Apply, Target;
    assert FileOk(s, file) && TaskOk(s, s.worker.task) && AimOk(s, s.worker.task, s.worker.target);
    var b := s.files[file].backup;
    if b >= 0 && s'.files[file].backup == b {
      assert UpToDate(s, file, b) ==> UpToDate(s', file, b);
      assert News(s, file) ==> News(s', file);
      assert forall t :: Waiting(s, t) && (s.worker.task != t || !s.worker.Targeted?) ==> Waiting(s', t);
    }
  }

  lemma {:induction false} FailKeepsTracked(s: System)
    requires Tracked(s) && Enabled(s, Fail) && FailsSafely(s) && Safe(Apply(s, Fail))
    ensures Tracked(Apply(s, Fail))
  {
    var s' := Apply(s, Fail);
    FailChanges(s);
    assert Steady(s, s');
    TasksStayOk(s, s');
    forall file | file in s'.files ensures FileOk(s', file) {
      FailKeepsFile(s, file);
    }
    hide Apply, Safe, TasksOk, FileOk;
    assert MessagesOk(s') && CreationsOk(s');
  }

  // ----------------------------------------------------------- servers come and go

  /** Nothing but the servers has changed, except that files may have lost a backup that is gone. */
  ghost predicate ServersChanged(s: System, s': System) {
    && s' == s.(available := s'.available, files := s'.files) && KeepsAims(s, s'.available)
    && (forall file :: file in s'.files <==> file in s.files)
    && (forall file :: file in s.files ==>
          || s'.files[file] == s.files[file]
          || (s'.files[file] == s.files[file].(backup := -1) && !Available(s'.available, s.files[file].backup)))
    && (forall file :: file in s.files && Available(s.available, s.files[file].primary) ==>
          Available(s'.available, s.files[file].primary))
    && (forall c :: c in s.creations && Available(s.available, c.primary) ==> Available(s'.available, c.primary))
  }

  lemma {:induction false} ChangeIsServersChanged(s: System, step: Step)
    requires Enabled(s, step) && Calm(s, step) && (step.Register? || step.Disconnect? || step.MarkDown?)
    ensures ServersChanged(s, Apply(s, step))
  {
    hide Target;
    assert Apply(s, step).available == ServersAfter(s.available, step);
  }

  lemma {:induction false} InFlightTaskOk(s: System, task: Task)
    requires TasksOk(s) && InFlight(s, task)
    ensures TaskOk(s, task)
  {
  }

  lemma {:induction false} ChangeKeepsTask(s: System, s': System, task: Task)
    requires TasksOk(s) && InFlight(s, task) && ServersChanged(s, s')
    ensures TaskOk(s', task)
    ensures forall target :: AimOk(s, task, target) ==> AimOk(s', task, target)
  {
    InFlightTaskOk(s, task);
    hide Target, TasksOk;
  }

  lemma {:induction false} ChangeKeepsTasks(s: System, s': System)
    requires TasksOk(s) && ServersChanged(s, s')
    ensures TasksOk(s')
  {
    forall t | InFlight(s, t)
      ensures TaskOk(s', t) && forall target :: AimOk(s, t, target) ==> AimOk(s', t, target)
    {
      ChangeKeepsTask(s, s', t);
    }
    assert forall k :: 0 <= k < |s.queue| ==> InFlight(s, s.queue[k]);
    hide KeepsAims, TaskOk, AimOk;
  }

  lemma {:induction false} ChangeKeepsCare(s: System, s': System, file: string, target: int)
    requires ServersChanged(s, s') && file in s.files && Cared(s, file, target) && target >= 0
    requires target == s.files[file].backup ==> s'.files[file].backup == target
    ensures Cared(s', file, target)
  {
    hide Target;
    assert UpToDate(s, file, target) ==> UpToDate(s', file, target);
    assert News(s, file) ==> News(s', file);
    assert Waiting(s, AssignOf(s, file)) ==> InFlight(s, AssignOf(s, file));
  }

  lemma {:induction false} ChangeKeepsFile(s: System, s': System, file: string)
    requires Tracked(s) && ServersChanged(s, s') && file in s.files
    ensures file in s'.files && FileOk(s', file)
  {
    assert FileOk(s, file);
    if s'.files[file].backup >= 0 {
      ChangeKeepsCare(s, s', file, s'.files[file].backup);
    }
    if InHand(s, file) {
      ChangeKeepsTask(s, s', s.worker.task);
      InFlightTaskOk(s, s.worker.task);
      assert AimOk(s', s.worker.task, s.worker.target);
      ChangeKeepsCare(s, s', file, s.worker.target);
    }
  }

  lemma {:induction false} ChangeKeepsMessages(s: System, s': System)
    requires MessagesOk(s) && CreationsOk(s) && ServersChanged(s, s')
    ensures MessagesOk(s') && CreationsOk(s')
  {
  }

  lemma {:induction false} ChangeKeepsTracked(s: System, step: Step)
    requires Tracked(s) && Enabled(s, step) && Calm(s, step) && Safe(Apply(s, step))
    requires step.Register? || step.Disconnect? || step.MarkDown?
    ensures Tracked(Apply(s, step))
  {
    var s' := Apply(s, step);
    ChangeIsServersChanged(s, step);
    hide Apply, Safe, KeepsAims, Calm, Enabled;
    ChangeKeepsTasks(s, s');
    ChangeKeepsMessages(s, s');
    assert forall file :: file in s'.files ==> file in s.files;
    hide ServersChanged, TasksOk, MessagesOk, CreationsOk, FileOk;
    forall file | file in s'.files ensures FileOk(s', file) {
      ChangeKeepsFile(s, s', file);
    }
  }

  lemma {:induction false} StepKeepsTracked(s: System, step: Step)
    requires Tracked(s) && Enabled(s, step) && Calm(s, step)
    ensures Tracked(Apply(s, step))
  {
    StepKeepsSafe(s, step);
    match step
    case CreatePrimary(_, _, _) => CreateKeepsTracked(s, step);
    case CreateBackup(_, _, _) => CreateKeepsTracked(s, step);
    case AbandonCreate(_) => CreateKeepsTracked(s, step);
    case FinishCreate(c, now) => FinishKeepsTracked(s, c, now);
    case Write(_, _, _, _) => WriteKeepsTracked(s, step);
    case Read(_, _) => ReadKeepsTracked(s, step);
    case Receive(message) => ReceiveKeepsTracked(s, message);
    case Enqueue(task) => EnqueueKeepsTracked(s, task);
    case TryAssign(file) => TryAssignKeepsTracked(s, file);
    case Select(file) => SelectChangesNothing(s, file);
    case Fetch => FetchKeepsTracked(s);
    case Save(now) => SaveKeepsTracked(s, now);
    case Finalise => FinaliseKeepsTracked(s);
    case Fail => FailKeepsTracked(s);
    case Register(_) => ChangeKeepsTracked(s, step);
    case Disconnect(_) => ChangeKeepsTracked(s, step);
    case MarkDown(_) => ChangeKeepsTracked(s, step);
    case _ => MoveKeepsTracked(s, step);
  }

  lemma {:induction false} AlwaysTracked(available: seq<bool>, steps: seq<Step>, states: seq<System>, k: nat)
    requires CalmRun(available, steps, states) && k < |states|
    ensures Tracked(states[k])
  {
    if k > 0 {
      AlwaysTracked(available, steps, states, k - 1);
      StepKeepsTracked(states[k - 1], steps[k - 1]);
    }
  }

  lemma {:induction false} TrackedAndDrained(s: System, file: string)
    requires Tracked(s) && Drained(s) && file in s.files && s.files[file].backup >= 0
    ensures UpToDate(s, file, s.files[file].backup)
  {
    assert FileOk(s, file) && Cared(s, file, s.files[file].backup);
  }

  /** No update is lost: whenever messages, handlers, queue and worker have drained, each
      recorded backup holds exactly the primary's text. */
  lemma {:induction false} DrainedBackupsAreCurrent(available: seq<bool>, steps: seq<Step>, states: seq<System>, k: nat, file: string)
    requires CalmRun(available, steps, states) && k < |states| && Drained(states[k])
    requires file in states[k].files && states[k].files[file].backup >= 0
    ensures var s, e := states[k], states[k].files[file];
            && (e.primary, file) in s.store && (e.backup, file) in s.store
            && s.store[(e.backup, file)].text == s.store[(e.primary, file)].text
  {
    AlwaysTracked(available, steps, states, k);
    TrackedAndDrained(states[k], file);
  }
}
