/** The name manager's decisions about where files live, and the system around it: storage
    servers with copies, update messages on their way, a replication queue and its worker.

    Every critical section of the name manager and every message or copy operation is one
    step; a run interleaves them in any order. After a registration, a disconnect or a failed
    synchronisation the name manager asks for new backups in sections of their own: that is the
    step TryAssign, which may come at any time. Files are not deleted. */
module Placement {
  import opened Wrappers

  /** Where a file lives; `backup` is -1 when it has none. */
  datatype FileEntry = FileEntry(primary: int, backup: int, modified: int)

  datatype Task = Task(file: string, primary: int, backup: int, assign: bool)

  type Files = map<string, FileEntry>

  predicate Available(available: seq<bool>, i: int) {
    0 <= i < |available| && available[i]
  }

  /** The first available server other than the primary, at index `from` or later, or -1. */
  function FirstOther(available: seq<bool>, primary: int, from: nat): (r: int)
    requires from <= |available|
    ensures r == -1 || (from <= r < |available| && available[r] && r != primary)
    ensures forall i :: from <= i < (if r == -1 then |available| else r) ==> !available[i] || i == primary
    decreases |available| - from
  {
    if from == |available| then -1
    else if from != primary && available[from] then from
    else FirstOther(available, primary, from + 1)
  }

  function Target(available: seq<bool>, primary: int): int {
    FirstOther(available, primary, 0)
  }

  // -------------------------------------------------------- the name manager's steps

  /** What a disconnect of `down` does to one entry; `available` already excludes it. */
  function Failover(e: FileEntry, down: int, available: seq<bool>): FileEntry {
    var moved :=
      if e.primary == down && e.backup >= 0 then
        if Available(available, e.backup) then e.(primary := e.backup, backup := -1) else e.(backup := -1)
      else e;
    if moved.backup == down then moved.(backup := -1) else moved
  }

  function FailoverAll(files: Files, down: int, available: seq<bool>): Files {
    map name | name in files :: Failover(files[name], down, available)
  }

  /** The file's server for a client: the primary, or the backup promoted in its place. */
  function Selected(e: FileEntry, available: seq<bool>): (FileEntry, int) {
    if e.primary >= 0 && Available(available, e.primary) then (e, e.primary)
    else if e.backup >= 0 then
      if Available(available, e.backup) then (e.(primary := e.backup, backup := -1), e.backup)
      else (e.(backup := -1), -1)
    else (e, -1)
  }

  /** The entry after an update message, and the task it asks for. */
  function Updated(e: FileEntry, modified: int): FileEntry {
    if modified != 0 then e.(modified := modified) else e
  }

  function UpdateTask(file: string, e: FileEntry, modified: int, available: seq<bool>): Option<Task> {
    if Updated(e, modified).modified != e.modified && e.backup >= 0 then Some(Task(file, e.primary, e.backup, false))
    else if e.backup < 0 && e.primary >= 0 && Target(available, e.primary) >= 0 then Some(Task(file, e.primary, -1, true))
    else None
  }

  function AssignTask(file: string, files: Files): Option<Task> {
    if file == "" || file !in files || files[file].backup >= 0 || files[file].primary < 0 then None
    else Some(Task(file, files[file].primary, -1, true))
  }

  /** A queued task that makes the new one unnecessary. */
  predicate Covers(queued: Task, task: Task) {
    queued.file == task.file
    && ((queued.assign && task.assign)
        || (!queued.assign && !task.assign && queued.primary == task.primary && queued.backup == task.backup))
  }

  predicate Schedulable(task: Task) {
    task.file != "" && task.primary >= 0 && (task.assign || task.backup >= 0)
  }

  function Scheduled(queue: seq<Task>, task: Task): seq<Task> {
    if !Schedulable(task) || exists k :: 0 <= k < |queue| && Covers(queue[k], task) then queue else queue + [task]
  }

  /** A failed synchronisation drops the backup it was meant for. */
  function Failed(files: Files, task: Task, target: int): Files {
    if task.file in files && !task.assign && files[task.file].backup == target
    then files[task.file := files[task.file].(backup := -1)]
    else files
  }

  function Finalised(files: Files, task: Task, primary: int, target: int): Files {
    if task.file in files && files[task.file].primary == primary && task.assign
    then files[task.file := files[task.file].(backup := target)]
    else files
  }

  // --------------------------------------------------------------- the whole system

  /** A server's copy of a file: its text and the server's own modification time. */
  datatype Copy = Copy(text: string, modified: int)

  datatype Message = Message(file: string, modified: int)

  /** The replication worker between its critical sections. */
  datatype Worker =
    | Idle
    | Taken(task: Task)
    | Captured(task: Task, primary: int)
    | Targeted(task: Task, primary: int, target: int)
    | Fetched(task: Task, primary: int, target: int, text: string)
    | Stored(task: Task, primary: int, target: int)

  /** A CREATE request between its remote calls. */
  datatype Creation = Creation(file: string, primary: int, backup: int)

  type Store = map<(int, string), Copy>

  datatype System = System(
    available: seq<bool>,
    files: Files,
    store: Store,
    messages: multiset<Message>,  // sent by storage servers, not yet handled
    handlers: multiset<Task>,     // decided by a handler, not yet put in the queue
    queue: seq<Task>,
    worker: Worker,
    creations: set<Creation>)

  /** No files yet; `available` says which of the known servers are connected. */
  function Boot(available: seq<bool>): System {
    System(available, map[], map[], multiset{}, multiset{}, [], Idle, {})
  }

  datatype Step =
    | Register(server: nat)
    | Disconnect(server: nat)
    | MarkDown(server: nat)
    | CreatePrimary(file: string, server: nat, now: int)
    | CreateBackup(creation: Creation, server: nat, now: int)
    | FinishCreate(creation: Creation, now: int)
    | AbandonCreate(creation: Creation)                         // the table is full
    | Write(server: nat, file: string, text: string, now: int)  // commit, undo or revert
    | Read(server: nat, file: string)
    | Receive(message: Message)
    | Enqueue(task: Task)
    | TryAssign(file: string)
    | Select(file: string)
    | Take
    | Capture
    | Aim
    | Fetch
    | Save(now: int)
    | Finalise
    | Fail

  predicate Syncable(s: System) {
    && s.worker.Targeted? && s.worker.primary != s.worker.target
    && Available(s.available, s.worker.primary) && Available(s.available, s.worker.target)
    && (s.worker.primary, s.worker.task.file) in s.store
  }

  predicate Enabled(s: System, step: Step) {
    match step
    case Register(i) => i <= |s.available|
    case Disconnect(d) => d < |s.available|
    case MarkDown(d) => d < |s.available|
    case CreatePrimary(file, i, _) => file != "" && file !in s.files && Available(s.available, i) && (i, file) !in s.store
    case CreateBackup(c, i, _) =>
      c in s.creations && c.backup == -1 && i != c.primary && Available(s.available, i) && (i, c.file) !in s.store
    case FinishCreate(c, _) => c in s.creations
    case AbandonCreate(c) => c in s.creations
    case Write(i, file, _, _) => (i, file) in s.store
    case Read(i, file) => (i, file) in s.store
    case Receive(message) => message in s.messages
    case Enqueue(task) => task in s.handlers
    case TryAssign(_) => true
    case Select(file) => file in s.files
    case Take => s.worker.Idle? && s.queue != []
    case Capture => s.worker.Taken?
    case Aim => s.worker.Captured?
    case Fetch => Syncable(s)
    case Save(_) => s.worker.Fetched?
    case Finalise => s.worker.Stored?
    case Fail => s.worker.Targeted? || s.worker.Fetched? || s.worker.Stored?
  }

  function Handed(handlers: multiset<Task>, task: Option<Task>): multiset<Task> {
    if task.None? then handlers else handlers + multiset{task.value}
  }

  function Received(s: System, message: Message): System
    requires message in s.messages
  {
    var left := s.(messages := s.messages - multiset{message});
    if message.file !in s.files then left
    else
      var e := s.files[message.file];
      left.(files := s.files[message.file := Updated(e, message.modified)],
            handlers := Handed(s.handlers, UpdateTask(message.file, e, message.modified, s.available)))
  }

  /** The worker compares the file's primary with the one in the task it took. */
  function CaptureTask(files: Files, task: Task): Worker {
    if task.file in files && files[task.file].primary >= 0 && files[task.file].primary == task.primary
    then Captured(task, task.primary) else Idle
  }

  /** It drops a synchronisation whose backup is not the recorded one, and an assignment without a candidate. */
  function AimTask(files: Files, available: seq<bool>, task: Task, primary: int): Worker {
    if task.assign then
      var target := Target(available, primary);
      if target < 0 then Idle else Targeted(task, primary, target)
    else if task.file in files && files[task.file].backup == task.backup then Targeted(task, primary, task.backup)
    else Idle
  }

  function SavedBy(s: System, now: int): System
    requires s.worker.Fetched?
  {
    var w := s.worker;
    var key := (w.target, w.task.file);
    s.(store := s.store[key := Copy(w.text, if key in s.store then s.store[key].modified else now)],
       worker := Stored(w.task, w.primary, w.target))
  }

  function FailedBy(s: System): System
    requires s.worker.Targeted? || s.worker.Fetched? || s.worker.Stored?
  {
    var w := s.worker;
    var files := Failed(s.files, w.task, w.target);
    s.(files := files, worker := Idle)
  }

  function Apply(s: System, step: Step): System
    requires Enabled(s, step)
  {
    match step
    case Register(i) =>
      s.(available := if i < |s.available| then s.available[i := true] else s.available + [true])
    case Disconnect(d) =>
      var available := s.available[d := false];
      s.(available := available, files := FailoverAll(s.files, d, available))
    case MarkDown(d) => s.(available := s.available[d := false])
    case CreatePrimary(file, i, now) =>
      s.(store := s.store[(i, file) := Copy("", now)], creations := s.creations + {Creation(file, i, -1)})
    case CreateBackup(c, i, now) =>
      s.(store := s.store[(i, c.file) := Copy("", now)], creations := s.creations - {c} + {c.(backup := i)})
    case FinishCreate(c, now) =>
      var left := s.(creations := s.creations - {c});
      if c.file in s.files then left else left.(files := s.files[c.file := FileEntry(c.primary, c.backup, now)])
    case AbandonCreate(c) => s.(creations := s.creations - {c})
    case Write(i, file, text, now) =>
      s.(store := s.store[(i, file) := Copy(text, now)], messages := s.messages + multiset{Message(file, now)})
    case Read(i, file) =>
      s.(messages := s.messages + multiset{Message(file, s.store[(i, file)].modified)})
    case Receive(message) => Received(s, message)
    case Enqueue(task) => s.(handlers := s.handlers - multiset{task}, queue := Scheduled(s.queue, task))
    case TryAssign(file) => s.(handlers := Handed(s.handlers, AssignTask(file, s.files)))
    case Select(file) => s.(files := s.files[file := Selected(s.files[file], s.available).0])
    case Take => s.(queue := s.queue[1..], worker := Taken(s.queue[0]))
    case Capture => s.(worker := CaptureTask(s.files, s.worker.task))
    case Aim => s.(worker := AimTask(s.files, s.available, s.worker.task, s.worker.primary))
    case Fetch =>
      var w := s.worker;
      var copy := s.store[(w.primary, w.task.file)];
      s.(worker := Fetched(w.task, w.primary, w.target, copy.text),
         messages := s.messages + multiset{Message(w.task.file, copy.modified)})
    case Save(now) => SavedBy(s, now)
    case Finalise => s.(files := Finalised(s.files, s.worker.task, s.worker.primary, s.worker.target), worker := Idle)
    case Fail => FailedBy(s)
  }

  // ------------------------------------------------------------------- the queue

  /** What an update report asks for: a synchronisation if the time is new and there is a backup;
      an assignment if there is none and some other server is available; nothing otherwise. */
  lemma {:induction false} UpdateAsks(file: string, e: FileEntry, modified: int, available: seq<bool>)
    ensures Updated(e, modified) == FileEntry(e.primary, e.backup, if modified == 0 then e.modified else modified)
    ensures UpdateTask(file, e, modified, available) == Some(Task(file, e.primary, e.backup, false))
            <==> e.backup >= 0 && modified != 0 && modified != e.modified
    ensures UpdateTask(file, e, modified, available) == Some(Task(file, e.primary, -1, true))
            <==> e.backup < 0 && e.primary >= 0 && exists i :: 0 <= i < |available| && available[i] && i != e.primary
    ensures UpdateTask(file, e, modified, available).Some? ==>
              var t := UpdateTask(file, e, modified, available).value;
              t == Task(file, e.primary, e.backup, false) || t == Task(file, e.primary, -1, true)
  {
    var target := Target(available, e.primary);
    assert target >= 0 ==> available[target] && target != e.primary;
  }

  /** A new task goes to the end of the queue or not at all; afterwards an equal one, or for an
      assignment any assignment of the file, is waiting. */
  lemma {:induction false} ScheduledAtEnd(queue: seq<Task>, task: Task)
    ensures var q := Scheduled(queue, task);
            && (q == queue || q == queue + [task])
            && (q != queue ==> task.file != "" && task.primary >= 0 && (task.assign || task.backup >= 0))
            && (task.file != "" && task.primary >= 0 && task.assign ==> exists t :: t in q && t.file == task.file && t.assign)
            && (task.file != "" && task.primary >= 0 && !task.assign && task.backup >= 0 ==>
                  exists t :: t in q && t.file == task.file && !t.assign && t.primary == task.primary && t.backup == task.backup)
  {
    if Schedulable(task) {
      if k :| 0 <= k < |queue| && Covers(queue[k], task) {
        assert queue[k] in Scheduled(queue, task);
      } else {
        assert Scheduled(queue, task)[|queue|] == task;
      }
    }
  }

  /** No two assignments of one file, and no two synchronisations of one file between the same servers. */
  ghost predicate NoDuplicates(queue: seq<Task>) {
    forall j, k :: 0 <= j < k < |queue| && queue[j].file == queue[k].file && queue[j].assign == queue[k].assign ==>
      !queue[j].assign && (queue[j].primary != queue[k].primary || queue[j].backup != queue[k].backup)
  }

  lemma {:induction false} ScheduledKeepsNoDuplicates(queue: seq<Task>, task: Task)
    requires NoDuplicates(queue)
    ensures NoDuplicates(Scheduled(queue, task))
  {
    if Scheduled(queue, task) != queue {
      assert forall k :: 0 <= k < |queue| ==> !Covers(queue[k], task);
    }
  }

  /** A run: the systems between its steps. */
  ghost predicate Run(available: seq<bool>, steps: seq<Step>, states: seq<System>) {
    && |states| == |steps| + 1 && states[0] == Boot(available)
    && forall k :: 0 <= k < |steps| ==> Enabled(states[k], steps[k]) && states[k + 1] == Apply(states[k], steps[k])
  }

  lemma {:induction false} RunOneMore(available: seq<bool>, steps: seq<Step>, states: seq<System>, step: Step)
    requires Run(available, steps, states) && Enabled(states[|steps|], step)
    ensures Run(available, steps + [step], states + [Apply(states[|steps|], step)])
  {
    hide Enabled, Apply;
  }

  lemma {:induction false} RunStep(available: seq<bool>, steps: seq<Step>, states: seq<System>, k: nat)
    requires Run(available, steps, states) && k < |steps|
    ensures Enabled(states[k], steps[k]) && states[k + 1] == Apply(states[k], steps[k])
  {
  }

  /** The task that a step puts into the queue, and the one that it hands to the worker. */
  function Came(s: System, step: Step, s': System): seq<Task> {
    if step.Enqueue? && |s'.queue| > |s.queue| then [step.task] else []
  }

  function Left(step: Step, s': System): seq<Task> {
    if step.Take? && !s'.worker.Idle? then [s'.worker.task] else []
  }

  function AllCame(steps: seq<Step>, states: seq<System>, m: nat, n: nat): seq<Task>
    requires m <= n <= |steps| < |states|
    decreases n
  {
    if n == m then [] else AllCame(steps, states, m, n - 1) + Came(states[n - 1], steps[n - 1], states[n])
  }

  function AllLeft(steps: seq<Step>, states: seq<System>, m: nat, n: nat): seq<Task>
    requires m <= n <= |steps| < |states|
    decreases n
  {
    if n == m then [] else AllLeft(steps, states, m, n - 1) + Left(steps[n - 1], states[n])
  }

  lemma {:induction false} QueueUntouched(s: System, step: Step)
    requires Enabled(s, step) && !step.Enqueue? && !step.Take?
    ensures Apply(s, step).queue == s.queue
  {
  }

  lemma {:induction false} QueueStep(s: System, step: Step)
    requires Enabled(s, step)
    ensures var s' := Apply(s, step);
            s.queue + Came(s, step, s') == Left(step, s') + s'.queue
  {
    if step.Enqueue? {
      ScheduledAtEnd(s.queue, step.task);
    } else if !step.Take? {
      QueueUntouched(s, step);
      hide Apply, Enabled;
    }
  }

  lemma {:induction false} FifoStep(q: seq<Task>, came: seq<Task>, left: seq<Task>, r: seq<Task>, c: seq<Task>, l: seq<Task>, r': seq<Task>)
    requires q + came == left + r && r + c == l + r'
    ensures q + (came + c) == left + l + r'
  {
    assert q + (came + c) == (q + came) + c;
    assert left + l + r' == left + (r + c);
  }

  lemma {:induction false} OneStepFifo(available: seq<bool>, steps: seq<Step>, states: seq<System>, k: nat)
    requires Run(available, steps, states) && k < |steps| < |states|
    ensures states[k].queue + Came(states[k], steps[k], states[k + 1]) == Left(steps[k], states[k + 1]) + states[k + 1].queue
  {
    hide Apply, Enabled, Run, Came, Left;
    RunStep(available, steps, states, k);
    QueueStep(states[k], steps[k]);
  }

  lemma {:induction false} OneMore(steps: seq<Step>, states: seq<System>, m: nat, n: nat)
    requires m < n <= |steps| < |states|
    ensures AllCame(steps, states, m, n) == AllCame(steps, states, m, n - 1) + Came(states[n - 1], steps[n - 1], states[n])
    ensures AllLeft(steps, states, m, n) == AllLeft(steps, states, m, n - 1) + Left(steps[n - 1], states[n])
  {
    hide Came, Left;
  }

  lemma {:induction false} NothingYet(steps: seq<Step>, states: seq<System>, m: nat)
    requires m <= |steps| < |states|
    ensures AllCame(steps, states, m, m) == [] && AllLeft(steps, states, m, m) == []
  {
  }

  /** First in, first out over any stretch of any run: what was waiting and what came since are,
      in this order, what left and what is waiting. */
  lemma {:induction false} QueueIsFifo(available: seq<bool>, steps: seq<Step>, states: seq<System>, m: nat, n: nat)
    requires Run(available, steps, states) && m <= n <= |steps| < |states|
    ensures states[m].queue + AllCame(steps, states, m, n) == AllLeft(steps, states, m, n) + states[n].queue
    decreases n
  {
    hide *;
    if n == m {
      NothingYet(steps, states, m);
      assert states[m].queue + [] == [] + states[m].queue;
    } else {
      QueueIsFifo(available, steps, states, m, n - 1);
      OneStepFifo(available, steps, states, n - 1);
      OneMore(steps, states, m, n);
      FifoStep(states[m].queue, AllCame(steps, states, m, n - 1), AllLeft(steps, states, m, n - 1), states[n - 1].queue,
               Came(states[n - 1], steps[n - 1], states[n]), Left(steps[n - 1], states[n]), states[n].queue);
    }
  }

  // -------------------------------------------------------------------- the copies

  /** A step changes a copy only as a write on its server or as the end of a synchronisation, which
      brings the text the worker fetched and leaves the server's own time alone. */
  lemma {:induction false} CopyStep(s: System, step: Step, server: int, file: string)
    requires Enabled(s, step) && (server, file) in Apply(s, step).store
    ensures var key := (server, file);
            var copy := Apply(s, step).store[key];
            || (key in s.store && copy == s.store[key])
            || (step.Write? && server == step.server && file == step.file && copy == Copy(step.text, step.now))
            || ((step.CreatePrimary? || step.CreateBackup?) && key !in s.store && copy == Copy("", step.now))
            || (step.Save? && s.worker.Fetched? && server == s.worker.target && file == s.worker.task.file
                && copy == Copy(s.worker.text, if key in s.store then s.store[key].modified else step.now))
  {
  }

  /** The worker holds a text only of the file it works on, and fetched it from that file's primary. */
  lemma {:induction false} FetchStep(s: System, step: Step)
    requires Enabled(s, step) && Apply(s, step).worker.Fetched?
    ensures var w := Apply(s, step).worker;
            || w == s.worker
            || (step.Fetch? && s.worker == Targeted(w.task, w.primary, w.target)
                && (w.primary, w.task.file) in s.store && w.text == s.store[(w.primary, w.task.file)].text)
  {
  }

  /** The text is empty, or one of the first `n` steps wrote it to this file. */
  ghost predicate Written(steps: seq<Step>, n: nat, file: string, text: string)
    requires n <= |steps|
  {
    text == "" || exists k :: 0 <= k < n && steps[k].Write? && steps[k].file == file && steps[k].text == text
  }

  ghost predicate OwnTexts(s: System, steps: seq<Step>, n: nat, file: string)
    requires n <= |steps|
  {
    && (forall i: int :: (i, file) in s.store ==> Written(steps, n, file, s.store[(i, file)].text))
    && (s.worker.Fetched? && s.worker.task.file == file ==> Written(steps, n, file, s.worker.text))
  }

  lemma {:induction false} OwnTextsStep(s: System, steps: seq<Step>, n: nat, file: string)
    requires n < |steps| && Enabled(s, steps[n]) && OwnTexts(s, steps, n, file)
    ensures OwnTexts(Apply(s, steps[n]), steps, n + 1, file)
  {
    var step := steps[n];
    var s' := Apply(s, step);
    hide Apply, Enabled;
    forall i: int | (i, file) in s'.store ensures Written(steps, n + 1, file, s'.store[(i, file)].text) {
      CopyStep(s, step, i, file);
    }
    if s'.worker.Fetched? {
      FetchStep(s, step);
    }
  }

  /** No replication mixes files up: in every run each copy of a file, on any server, holds the
      empty text or one that was written to this very file before. */
  lemma {:induction false} CopiesHoldWrittenText(available: seq<bool>, steps: seq<Step>, states: seq<System>, n: nat, file: string)
    requires Run(available, steps, states) && n <= |steps| < |states|
    ensures forall i: int :: (i, file) in states[n].store ==> Written(steps, n, file, states[n].store[(i, file)].text)
    ensures OwnTexts(states[n], steps, n, file)
  {
    if n > 0 {
      hide Apply, Enabled, Run, Written;
      CopiesHoldWrittenText(available, steps, states, n - 1, file);
      RunStep(available, steps, states, n - 1);
      OwnTextsStep(states[n - 1], steps, n - 1, file);
    }
  }

  // ------------------------------------------------------------------------ safety

  /** Primary and backup are servers, are different, and hold a copy. */
  predicate Placed(s: System, file: string, primary: int, backup: int) {
    && 0 <= primary < |s.available| && (primary, file) in s.store
    && (backup == -1 || (0 <= backup < |s.available| && backup != primary && (backup, file) in s.store))
  }

  predicate WorkerSafe(s: System) {
    match s.worker
    case Targeted(t, p, b) => t.assign ==> 0 <= b < |s.available| && b != p
    case Fetched(_, p, b, _) => 0 <= b < |s.available| && b != p
    case Stored(t, p, b) => 0 <= b < |s.available| && b != p && (b, t.file) in s.store
    case _ => true
  }

  ghost predicate Safe(s: System) {
    && (forall file :: file in s.files ==> Placed(s, file, s.files[file].primary, s.files[file].backup))
    && (forall c :: c in s.creations ==> Placed(s, c.file, c.primary, c.backup))
    && WorkerSafe(s)
  }

  lemma {:induction false} ServersStay(s: System, step: Step)
    requires Enabled(s, step)
    ensures |s.available| <= |Apply(s, step).available|
  {
  }

  lemma {:induction false} StoreStays(s: System, step: Step)
    requires Enabled(s, step)
    ensures forall key :: key in s.store ==> key in Apply(s, step).store
  {
  }

  lemma {:induction false} FilesStay(s: System, step: Step)
    requires Enabled(s, step)
    ensures forall file :: file in s.files ==> file in Apply(s, step).files
  {
  }

  /** Nothing a step does takes a copy or a server slot away. */
  lemma {:induction false} CopiesStay(s: System, step: Step)
    requires Enabled(s, step)
    ensures |s.available| <= |Apply(s, step).available|
    ensures forall key :: key in s.store ==> key in Apply(s, step).store
    ensures forall file :: file in s.files ==> file in Apply(s, step).files
  {
    hide Apply, Enabled;
    ServersStay(s, step);
    StoreStays(s, step);
    FilesStay(s, step);
  }

  /** The ways in which a step can change a file's entry. */
  lemma {:induction false} EntryMoves(s: System, step: Step, file: string)
    requires Enabled(s, step) && file in s.files
    ensures file in Apply(s, step).files
    ensures var e, e' := s.files[file], Apply(s, step).files[file];
            || (e'.primary == e.primary && (e'.backup == e.backup || e'.backup == -1))
            || (e.backup >= 0 && e'.primary == e.backup && e'.backup == -1)
            || (step.Finalise? && s.worker.task.assign && file == s.worker.task.file
                && e'.primary == e.primary == s.worker.primary && e'.backup == s.worker.target)
  {
  }

  lemma {:induction false} FilesStaySafe(s: System, step: Step, file: string)
    requires Safe(s) && Enabled(s, step) && file in Apply(s, step).files
    ensures var s' := Apply(s, step);
            Placed(s', file, s'.files[file].primary, s'.files[file].backup)
  {
    CopiesStay(s, step);
    if file in s.files {
      EntryMoves(s, step, file);
      assert Placed(s, file, s.files[file].primary, s.files[file].backup);
      hide Apply;
    } else {
      NewEntry(s, step, file);
      assert Placed(s, file, step.creation.primary, step.creation.backup);
      hide Apply;
    }
  }

  lemma {:induction false} NewEntry(s: System, step: Step, file: string)
    requires Enabled(s, step) && file !in s.files && file in Apply(s, step).files
    ensures step.FinishCreate? && file == step.creation.file
    ensures var e := Apply(s, step).files[file];
            e.primary == step.creation.primary && e.backup == step.creation.backup
  {
  }

  lemma {:induction false} CreationsStaySafe(s: System, step: Step, c: Creation)
    requires Safe(s) && Enabled(s, step) && c in Apply(s, step).creations
    ensures Placed(Apply(s, step), c.file, c.primary, c.backup)
  {
    CopiesStay(s, step);
    if c in s.creations {
      assert Placed(s, c.file, c.primary, c.backup);
    } else if step.CreateBackup? {
      assert Placed(s, step.creation.file, step.creation.primary, step.creation.backup);
    }
  }

  lemma {:induction false} IdlerStaysSafe(s: System, step: Step)
    requires Enabled(s, step) && (step.Take? || step.Capture? || step.Aim? || step.Finalise? || step.Fail?)
    ensures WorkerSafe(Apply(s, step))
  {
  }

  lemma {:induction false} CopierStaysSafe(s: System, step: Step)
    requires Safe(s) && Enabled(s, step) && (step.Fetch? || step.Save?)
    ensures WorkerSafe(Apply(s, step))
  {
  }

  lemma {:induction false} WorkerStays(s: System, step: Step)
    requires Enabled(s, step)
    requires !step.Take? && !step.Capture? && !step.Aim? && !step.Finalise? && !step.Fail? && !step.Fetch? && !step.Save?
    ensures Apply(s, step).worker == s.worker
  {
  }

  lemma {:induction false} WorkerStaysSafe(s: System, step: Step)
    requires Safe(s) && Enabled(s, step)
    ensures WorkerSafe(Apply(s, step))
  {
    hide Apply, Enabled;
    if step.Take? || step.Capture? || step.Aim? || step.Finalise? || step.Fail? {
      IdlerStaysSafe(s, step);
    } else if step.Fetch? || step.Save? {
      CopierStaysSafe(s, step);
    } else {
      WorkerStays(s, step);
      CopiesStay(s, step);
    }
  }

  lemma {:induction false} StepKeepsSafe(s: System, step: Step)
    requires Safe(s) && Enabled(s, step)
    ensures Safe(Apply(s, step))
  {
    var s' := Apply(s, step);
    forall file | file in s'.files ensures Placed(s', file, s'.files[file].primary, s'.files[file].backup) {
      FilesStaySafe(s, step, file);
    }
    forall c | c in s'.creations ensures Placed(s', c.file, c.primary, c.backup) {
      CreationsStaySafe(s, step, c);
    }
    WorkerStaysSafe(s, step);
  }

  /** In every reachable state every recorded primary and backup holds a copy, and no file has
      its backup on its primary. */
  lemma {:induction false} AlwaysSafe(available: seq<bool>, steps: seq<Step>, states: seq<System>, k: nat)
    requires Run(available, steps, states) && k < |states|
    ensures Safe(states[k])
  {
    if k > 0 {
      AlwaysSafe(available, steps, states, k - 1);
      StepKeepsSafe(states[k - 1], steps[k - 1]);
    }
  }

  /** A primary only ever moves onto the recorded backup, only if that one is available, and
      only when it is not available itself. */
  lemma {:induction false} PrimaryMovesToBackup(s: System, step: Step, file: string)
    requires Enabled(s, step) && file in s.files && s.files[file].primary < |s.available|
    ensures file in Apply(s, step).files
    ensures var e, e' := s.files[file], Apply(s, step).files[file];
            e'.primary != e.primary ==>
              && (step.Disconnect? || step.Select?)
              && e.backup >= 0 && e'.primary == e.backup && e'.backup == -1
              && Available(Apply(s, step).available, e'.primary)
              && !Available(Apply(s, step).available, e.primary)
  {
  }

  predicate HasPrimary(s: System, file: string, p: int) {
    file in s.files && s.files[file].primary == p
  }

  lemma {:induction false} StepKeepsPrimary(s: System, step: Step, file: string, p: int)
    requires Enabled(s, step) && HasPrimary(s, file, p)
    requires Available(s.available, p) && Available(Apply(s, step).available, p)
    ensures HasPrimary(Apply(s, step), file, p)
  {
    PrimaryMovesToBackup(s, step, file);
    hide Apply, Enabled;
  }

  predicate StaysUp(states: seq<System>, m: nat, n: nat, p: int)
    requires m <= n < |states|
  {
    forall k :: m <= k <= n ==> Available(states[k].available, p)
  }

  lemma {:induction false} StaysUpEnd(states: seq<System>, m: nat, n: nat, p: int)
    requires m < n < |states| && StaysUp(states, m, n, p)
    ensures StaysUp(states, m, n - 1, p)
    ensures Available(states[n - 1].available, p) && Available(states[n].available, p)
  {
  }

  /** Over any stretch of a run in which a file's primary stays available, it stays the primary. */
  lemma {:induction false} PrimaryStays(available: seq<bool>, steps: seq<Step>, states: seq<System>, m: nat, n: nat, file: string, p: int)
    requires Run(available, steps, states) && m <= n <= |steps| && |states| == |steps| + 1
    requires HasPrimary(states[m], file, p) && StaysUp(states, m, n, p)
    ensures HasPrimary(states[n], file, p)
    decreases n
  {
    if n > m {
      hide Apply, Enabled, Available, HasPrimary, Run, StaysUp;
      var l := n - 1;
      StaysUpEnd(states, m, n, p);
      PrimaryStays(available, steps, states, m, l, file, p);
      RunStep(available, steps, states, l);
      var s, step := states[l], steps[l];
      StepKeepsPrimary(s, step, file, p);
    }
  }

  /** A disconnect promotes every available backup of the lost server's files, keeps the
      other primaries, and leaves a backup recorded exactly where it is not involved. */
  lemma {:induction false} DisconnectPromotes(s: System, d: nat, file: string)
    requires Safe(s) && Enabled(s, Disconnect(d)) && file in s.files
    ensures var e, e' := s.files[file], Apply(s, Disconnect(d)).files[file];
            && (e'.primary != d <==> e.primary != d || Available(s.available, e.backup))
            && (e.primary == d && Available(s.available, e.backup) ==> e'.primary == e.backup && e'.backup == -1)
            && (e.primary != d ==> e'.primary == e.primary)
            && (e'.backup >= 0 <==> e.backup >= 0 && e.primary != d && e.backup != d)
            && (e'.backup >= 0 ==> e'.backup == e.backup)
  {
    assert Placed(s, file, s.files[file].primary, s.files[file].backup);
  }

  /** A client is served exactly when the primary or the backup is available; the server it
      gets is the recorded primary from then on, and it holds a copy. */
  lemma {:induction false} SelectionServes(s: System, file: string)
    requires Safe(s) && file in s.files
    ensures var e, server := s.files[file], Selected(s.files[file], s.available).1;
            && (server >= 0 <==> Available(s.available, e.primary) || Available(s.available, e.backup))
            && (server >= 0 ==>
                  && Available(s.available, server) && (server, file) in s.store
                  && Apply(s, Select(file)).files[file].primary == server)
            && (Available(s.available, e.primary) ==> server == e.primary && Apply(s, Select(file)).files[file] == e)
            && (!Available(s.available, e.primary) && server >= 0 ==> server == e.backup)
            && (!Available(s.available, e.primary) ==> Apply(s, Select(file)).files[file].backup == -1)
            && (server < 0 ==> Apply(s, Select(file)).files[file].primary == e.primary)
  {
    assert Placed(s, file, s.files[file].primary, s.files[file].backup);
  }

  predicate NamesBackup(s: System, server: int) {
    exists file :: file in s.files && s.files[file].backup == server
  }

  /** Once a server has disconnected no file names it as backup. */
  lemma {:induction false} DisconnectClearsBackups(s: System, d: nat)
    requires Enabled(s, Disconnect(d))
    ensures !NamesBackup(Apply(s, Disconnect(d)), d)
  {
  }

  /** Later on a file gets it as backup exactly when an assignment that aims at it is recorded
      for an unmoved primary, or a creation that placed its backup there is. */
  lemma {:induction false} BackupsStayCleared(s: System, step: Step, d: nat)
    requires Enabled(s, step) && !NamesBackup(s, d)
    ensures NamesBackup(Apply(s, step), d) <==>
              || (step.Finalise? && s.worker.task.assign && s.worker.target == d && s.worker.task.file in s.files
                  && s.files[s.worker.task.file].primary == s.worker.primary)
              || (step.FinishCreate? && step.creation.file !in s.files && step.creation.backup == d)
  {
    var s' := Apply(s, step);
    if NamesBackup(s', d) {
      var file :| file in s'.files && s'.files[file].backup == d;
      if file in s.files {
        assert s.files[file].backup != d;
      }
    }
    if step.Finalise? && s.worker.task.file in s'.files && s'.files[s.worker.task.file].backup == d {
      assert NamesBackup(s', d);
    }
    if step.FinishCreate? && s'.files[step.creation.file].backup == d {
      assert NamesBackup(s', d);
    }
  }

  predicate Names(s: System, file: string, server: int) {
    file in s.files && s.files[file].backup == server
  }

  /** The step makes `d` the backup of the file. */
  predicate Records(s: System, step: Step, file: string, d: nat) {
    || (step.Finalise? && s.worker.Stored? && s.worker.task.assign && s.worker.task.file == file && s.worker.target == d
        && file in s.files && s.files[file].primary == s.worker.primary)
    || (step.FinishCreate? && step.creation.file == file && file !in s.files && step.creation.backup == d)
  }

  /** The step takes the backup away, promotes it, or puts another one in its place. */
  predicate Drops(s: System, step: Step, file: string, d: nat) {
    && file in s.files
    && match step
       case Disconnect(x) => x == s.files[file].backup || x == s.files[file].primary
       case Select(name) => name == file && !Available(s.available, s.files[file].primary)
       case Fail => !s.worker.Idle? && !s.worker.task.assign && s.worker.task.file == file
                    && !s.worker.Taken? && !s.worker.Captured? && s.worker.target == s.files[file].backup
       case Finalise => s.worker.Stored? && s.worker.task.assign && s.worker.task.file == file
                        && s.files[file].primary == s.worker.primary && s.worker.target != d
       case _ => false
  }

  lemma {:induction false} EntryKept(s: System, step: Step, file: string)
    requires Enabled(s, step) && !step.Disconnect? && !step.Select? && !step.Fail? && !step.Finalise? && !step.FinishCreate?
    ensures file in Apply(s, step).files <==> file in s.files
    ensures file in s.files ==> Apply(s, step).files[file].backup == s.files[file].backup
  {
  }

  lemma {:induction false} FinaliseChanges(s: System, file: string, d: nat)
    requires Enabled(s, Finalise)
    ensures Names(Apply(s, Finalise), file, d)
            <==> Records(s, Finalise, file, d) || (Names(s, file, d) && !Drops(s, Finalise, file, d))
  {
  }

  lemma {:induction false} BackupChanges(s: System, step: Step, file: string, d: nat)
    requires Enabled(s, step)
    ensures Names(Apply(s, step), file, d) <==> Records(s, step, file, d) || (Names(s, file, d) && !Drops(s, step, file, d))
  {
    match step
    case Finalise => FinaliseChanges(s, file, d);
    case Disconnect(_) => {}
    case Select(_) => {}
    case Fail => {}
    case FinishCreate(_, _) => {}
    case _ => {
      EntryKept(s, step, file);
      hide Apply, Enabled;
    }
  }

  predicate RecordedSince(steps: seq<Step>, states: seq<System>, k: nat, n: nat, file: string, d: nat)
    requires k < n <= |steps| < |states|
  {
    Records(states[k], steps[k], file, d) && forall j :: k < j < n ==> !Drops(states[j], steps[j], file, d)
  }

  lemma {:induction false} RecordedSinceStep(steps: seq<Step>, states: seq<System>, k: nat, n: nat, file: string, d: nat)
    requires k < n < |steps| < |states|
    ensures RecordedSince(steps, states, k, n + 1, file, d)
            <==> RecordedSince(steps, states, k, n, file, d) && !Drops(states[n], steps[n], file, d)
    ensures RecordedSince(steps, states, n, n + 1, file, d) <==> Records(states[n], steps[n], file, d)
  {
  }

  /** Over whole runs: after a disconnect of `d`, a file names it as backup exactly when an
      assignment or a creation has recorded it since then and no step has dropped it after that. */
  lemma {:induction false} BackupNamedIff(available: seq<bool>, steps: seq<Step>, states: seq<System>, m: nat, n: nat, file: string, d: nat)
    requires Run(available, steps, states) && m < n <= |steps| && steps[m] == Disconnect(d)
    ensures Names(states[n], file, d) <==> exists k :: m < k < n && RecordedSince(steps, states, k, n, file, d)
    decreases n
  {
    var l := n - 1;
    assert Enabled(states[l], steps[l]) && states[n] == Apply(states[l], steps[l]);
    if l == m {
      DisconnectClearsBackups(states[m], d);
    } else {
      hide Apply, Names, Records, Drops, RecordedSince, Enabled;
      BackupNamedIff(available, steps, states, m, l, file, d);
      BackupChanges(states[l], steps[l], file, d);
      RecordedSinceLater(steps, states, m, l, n, file, d);
    }
  }

  lemma {:induction false} RecordedSinceLater(steps: seq<Step>, states: seq<System>, m: nat, l: nat, n: nat, file: string, d: nat)
    requires m < l < |steps| < |states| && n == l + 1
    ensures (exists k :: m < k < n && RecordedSince(steps, states, k, n, file, d))
            <==> Records(states[l], steps[l], file, d)
                 || ((exists k :: m < k < l && RecordedSince(steps, states, k, l, file, d)) && !Drops(states[l], steps[l], file, d))
  {
    hide Records, Drops, RecordedSince;
    forall k | m < k < l
      ensures RecordedSince(steps, states, k, n, file, d)
              <==> RecordedSince(steps, states, k, l, file, d) && !Drops(states[l], steps[l], file, d)
    {
      RecordedSinceStep(steps, states, k, l, file, d);
    }
    RecordedSinceStep(steps, states, m, l, file, d);
  }

  /** An assignment of the file to `d` that is past its fetch, or a creation that has placed the
      file's backup there. */
  predicate Late(s: System, file: string, d: nat) {
    || ((s.worker.Fetched? || s.worker.Stored?) && s.worker.task.assign && s.worker.task.file == file && s.worker.target == d)
    || exists c :: c in s.creations && c.file == file && c.backup == d
  }

  lemma {:induction false} NamesNeedsLate(s: System, step: Step, file: string, d: nat)
    requires Enabled(s, step) && Names(Apply(s, step), file, d)
    ensures Names(s, file, d) || Late(s, file, d)
  {
    BackupChanges(s, step, file, d);
    hide Apply;
  }

  lemma {:induction false} LateNeedsLate(s: System, step: Step, file: string, d: nat)
    requires Enabled(s, step) && step != Register(d) && !Available(s.available, d)
    requires Late(Apply(s, step), file, d)
    ensures Late(s, file, d)
  {
  }

  lemma {:induction false} StaysDown(s: System, step: Step, d: nat)
    requires Enabled(s, step) && step != Register(d) && !Available(s.available, d)
    requires d < |s.available|
    ensures d < |Apply(s, step).available| && !Available(Apply(s, step).available, d)
  {
  }

  lemma {:induction false} DisconnectLate(s: System, file: string, d: nat)
    requires Enabled(s, Disconnect(d))
    ensures var s' := Apply(s, Disconnect(d));
            && d < |s'.available| && !Available(s'.available, d) && !Names(s', file, d)
            && (Late(s', file, d) ==> Late(s, file, d))
  {
  }

  /** What can be seen at the disconnect itself: as long as the server does not register again, a
      file can name it as backup only if an assignment past its fetch or a creation aimed at it then. */
  lemma {:induction false} NamedOnlyIfLate(available: seq<bool>, steps: seq<Step>, states: seq<System>, m: nat, n: nat, file: string, d: nat)
    requires Run(available, steps, states) && m < n <= |steps| && steps[m] == Disconnect(d)
    requires forall k :: m < k < n ==> steps[k] != Register(d)
    ensures Names(states[n], file, d) || Late(states[n], file, d) ==> Late(states[m], file, d)
    ensures d < |states[n].available| && !Available(states[n].available, d)
    decreases n
  {
    var l := n - 1;
    RunStep(available, steps, states, l);
    hide Apply, Enabled, Names, Late, Run, Available;
    if l == m {
      DisconnectLate(states[m], file, d);
    } else {
      NamedOnlyIfLate(available, steps, states, m, l, file, d);
      var s, step := states[l], steps[l];
      StaysDown(s, step, d);
      if Names(states[n], file, d) {
        NamesNeedsLate(s, step, file, d);
      }
      if Late(states[n], file, d) {
        LateNeedsLate(s, step, file, d);
      }
    }
  }

  /** The exception is real: an assignment that is already stored when its server goes down
      is still recorded, and the file's backup is then a server that is not available. */
  lemma {:induction false} LateAssignmentNamesDownServer(s: System, d: nat)
    requires s.worker.Stored? && s.worker.task.assign && s.worker.target == d && d < |s.available|
    requires s.worker.task.file in s.files
    requires s.files[s.worker.task.file].primary == s.worker.primary != d
    ensures Enabled(s, Disconnect(d)) && Enabled(Apply(s, Disconnect(d)), Finalise)
    ensures var after := Apply(Apply(s, Disconnect(d)), Finalise);
            NamesBackup(after, d) && !Available(after.available, d)
  {
    var after := Apply(Apply(s, Disconnect(d)), Finalise);
    assert after.files[s.worker.task.file].backup == d;
  }
}
