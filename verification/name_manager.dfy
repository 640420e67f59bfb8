/** The name manager's handlers in the form it runs them: loops over its tables that change
    entries and queue tasks. Each is proved against the step functions of `Placement`. */
module NameManagers {
  import opened GrowArrays
  import opened Placement
  import opened Wrappers

  predicate DistinctNames(names: seq<string>) {
    forall i, j :: 0 <= i < j < |names| ==> names[i] != names[j]
  }

  /** The table while the disconnect loop has passed the first `n` slots. */
  ghost function FailoverFirst(files: Files, names: seq<string>, n: nat, down: int, available: seq<bool>): Files
    requires n <= |names|
  {
    map name | name in files :: if name in names[..n] then Failover(files[name], down, available) else files[name]
  }

  /** A file the loop changed or found without its primary, and that could get a backup now. */
  predicate WantsBackup(e: FileEntry, down: int, available: seq<bool>) {
    var e' := Failover(e, down, available);
    (e.primary == down || e.backup == down) && e'.backup < 0 && e'.primary >= 0 && Target(available, e'.primary) >= 0
  }

  function Orphans(files: Files, names: seq<string>, n: nat, down: int, available: seq<bool>): seq<string>
    requires n <= |names| && forall k :: 0 <= k < |names| ==> names[k] in files
  {
    if n == 0 then []
    else Orphans(files, names, n - 1, down, available)
         + (if WantsBackup(files[names[n - 1]], down, available) then [names[n - 1]] else [])
  }

  /** The queue after `try_assign_backup` for each of the first `n` names. */
  function AssignedAll(queue: seq<Task>, files: Files, names: seq<string>, n: nat): seq<Task>
    requires n <= |names|
  {
    if n == 0 then queue
    else
      var q, task := AssignedAll(queue, files, names, n - 1), AssignTask(names[n - 1], files);
      if task.None? then q else Scheduled(q, task.value)
  }

  predicate AssignAfterFailure(files: Files, task: Task, target: int) {
    task.assign || (task.file in files && files[task.file].backup == target && files[task.file].primary >= 0)
  }

  ghost predicate HasAssignment(queue: seq<Task>, name: string) {
    exists t :: t in queue && t.file == name && t.assign
  }

  lemma {:induction false} WantsBackupMeans(e: FileEntry, down: int, available: seq<bool>)
    ensures var e' := Failover(e, down, available);
            WantsBackup(e, down, available)
            <==> (e.primary == down || e.backup == down) && e'.backup < 0 && e'.primary >= 0
                 && exists i :: 0 <= i < |available| && available[i] && i != e'.primary
  {
    var target := Target(available, Failover(e, down, available).primary);
    assert target >= 0 ==> available[target];
  }

  lemma {:induction false} OrphansMembers(files: Files, names: seq<string>, n: nat, down: int, available: seq<bool>, name: string)
    requires n <= |names| && forall k :: 0 <= k < |names| ==> names[k] in files
    ensures name in Orphans(files, names, n, down, available)
            <==> exists k :: 0 <= k < n && names[k] == name && WantsBackup(files[names[k]], down, available)
  {
    hide WantsBackup;
    if n > 0 {
      OrphansMembers(files, names, n - 1, down, available, name);
    }
  }

  /** What an assignment request leaves in the queue. */
  lemma {:induction false} AssignTaskMeans(name: string, files: Files, queue: seq<Task>)
    ensures var task := AssignTask(name, files);
            var q := if task.None? then queue else Scheduled(queue, task.value);
            && queue <= q
            && (name != "" && name in files && files[name].backup < 0 && files[name].primary >= 0 ==> HasAssignment(q, name))
            && (!(name != "" && name in files && files[name].backup < 0 && files[name].primary >= 0) ==> q == queue)
            && (q != queue ==> name in files && q == queue + [Task(name, files[name].primary, -1, true)])
  {
    if AssignTask(name, files).Some? {
      ScheduledAtEnd(queue, AssignTask(name, files).value);
    }
  }

  /** A task behind the first ones of the queue, asked for by one of the names. */
  ghost predicate AskedFor(files: Files, names: seq<string>, t: Task) {
    t.file in names && t.file in files && t == Task(t.file, files[t.file].primary, -1, true)
  }

  lemma {:induction false} AssignedAllMeans(queue: seq<Task>, files: Files, names: seq<string>, n: nat)
    requires n <= |names|
    ensures queue <= AssignedAll(queue, files, names, n)
    ensures forall k :: |queue| <= k < |AssignedAll(queue, files, names, n)| ==>
              AskedFor(files, names, AssignedAll(queue, files, names, n)[k])
    ensures forall j :: (0 <= j < n && names[j] != "" && names[j] in files
                         && files[names[j]].backup < 0 && files[names[j]].primary >= 0) ==>
              HasAssignment(AssignedAll(queue, files, names, n), names[j])
  {
    if n > 0 {
      AssignedAllMeans(queue, files, names, n - 1);
      var q := AssignedAll(queue, files, names, n - 1);
      AssignTaskMeans(names[n - 1], files, q);
      var q' := AssignedAll(queue, files, names, n);
      assert forall t :: t in q ==> t in q';
    }
  }

  /** The file lost a server, has a primary but no backup now, and could get one. */
  ghost predicate LeftWithout(before: Files, after: Files, down: int, available: seq<bool>, name: string) {
    && name in before && name in after
    && (before[name].primary == down || before[name].backup == down)
    && after[name].backup < 0 && after[name].primary >= 0
    && exists i :: 0 <= i < |available| && available[i] && i != after[name].primary
  }

  /** What a disconnect does to the queue, in terms of the files only: nothing leaves it; every
      file left without a backup has an assignment waiting; every new task is an assignment of
      such a file, with the primary of the moment. */
  ghost predicate BackupsAsked(before: Files, after: Files, down: int, available: seq<bool>, queue: seq<Task>, queue': seq<Task>) {
    && queue <= queue'
    && (forall name :: LeftWithout(before, after, down, available, name) && name != "" ==> HasAssignment(queue', name))
    && (forall k :: |queue| <= k < |queue'| ==>
          && LeftWithout(before, after, down, available, queue'[k].file)
          && queue'[k] == Task(queue'[k].file, after[queue'[k].file].primary, -1, true))
  }

  lemma {:induction false} DisconnectAsks(files: Files, names: seq<string>, down: int, available: seq<bool>, queue: seq<Task>)
    requires forall name :: name in files <==> name in names
    ensures var files' := FailoverAll(files, down, available);
            var orphans := Orphans(files, names, |names|, down, available);
            BackupsAsked(files, files', down, available, queue, AssignedAll(queue, files', orphans, |orphans|))
  {
    var files' := FailoverAll(files, down, available);
    var orphans := Orphans(files, names, |names|, down, available);
    var q := AssignedAll(queue, files', orphans, |orphans|);
    AssignedAllMeans(queue, files', orphans, |orphans|);
    forall name ensures name in orphans <==> LeftWithout(files, files', down, available, name) {
      OrphansMembers(files, names, |names|, down, available, name);
      if name in files {
        WantsBackupMeans(files[name], down, available);
      }
    }
    hide Failover, FailoverAll, Orphans, WantsBackup, AssignedAll;
    forall k | |queue| <= k < |q| ensures q[k].file in orphans && q[k].file in files' {
      assert AskedFor(files', orphans, q[k]);
    }
    forall name | LeftWithout(files, files', down, available, name) && name != "" ensures HasAssignment(q, name) {
      assert name in orphans;
      var j :| 0 <= j < |orphans| && orphans[j] == name;
    }
  }

  /** The tasks from position `from` on are for files at growing places of the list. */
  ghost predicate InListOrder(q: seq<Task>, from: nat, names: seq<string>) {
    forall j, k, x, y :: (from <= j < k < |q| && 0 <= x < |names| && 0 <= y < |names|
                          && names[x] == q[j].file && names[y] == q[k].file) ==> x < y
  }

  ghost predicate BelowPlace(q: seq<Task>, from: nat, names: seq<string>, n: nat) {
    forall k, x :: from <= k < |q| && 0 <= x < |names| && names[x] == q[k].file ==> x < n
  }

  lemma {:induction false} OneMoreInOrder(q: seq<Task>, from: nat, names: seq<string>, n: nat, t: Task)
    requires n < |names| && DistinctNames(names) && t.file == names[n]
    requires from <= |q| && InListOrder(q, from, names) && BelowPlace(q, from, names, n)
    ensures InListOrder(q + [t], from, names) && BelowPlace(q + [t], from, names, n + 1)
  {
    var q' := q + [t];
    forall k, x | from <= k < |q'| && 0 <= x < |names| && names[x] == q'[k].file
      ensures x < n + 1 && (k < |q| ==> x < n)
    {
      assert k < |q| ==> q'[k] == q[k];
    }
  }

  lemma {:induction false} AssignedStep(queue: seq<Task>, files: Files, names: seq<string>, n: nat) returns (t: Task)
    requires n < |names|
    ensures var q, q' := AssignedAll(queue, files, names, n), AssignedAll(queue, files, names, n + 1);
            q' == q || (q' == q + [t] && t.file == names[n])
  {
    t := Task(names[n], -1, -1, true);
    if AssignTask(names[n], files).Some? {
      t := AssignTask(names[n], files).value;
      ScheduledAtEnd(AssignedAll(queue, files, names, n), t);
    }
  }

  lemma {:induction false} NoneAsked(queue: seq<Task>, files: Files, names: seq<string>)
    ensures var q := AssignedAll(queue, files, names, 0);
            q == queue && InListOrder(q, |queue|, names) && BelowPlace(q, |queue|, names, 0)
  {
  }

  lemma {:induction false} AssignedInOrder(queue: seq<Task>, files: Files, names: seq<string>, n: nat)
    requires n <= |names| && DistinctNames(names)
    ensures var q := AssignedAll(queue, files, names, n);
            |queue| <= |q| && InListOrder(q, |queue|, names) && BelowPlace(q, |queue|, names, n)
  {
    hide *;
    if n == 0 {
      NoneAsked(queue, files, names);
    } else {
      var q, q' := AssignedAll(queue, files, names, n - 1), AssignedAll(queue, files, names, n);
      AssignedInOrder(queue, files, names, n - 1);
      var t := AssignedStep(queue, files, names, n - 1);
      if q' == q {
        BelowNext(q, |queue|, names, n - 1);
      } else {
        OneMoreInOrder(q, |queue|, names, n - 1, t);
      }
    }
  }

  lemma {:induction false} BelowNext(q: seq<Task>, from: nat, names: seq<string>, n: nat)
    requires BelowPlace(q, from, names, n)
    ensures BelowPlace(q, from, names, n + 1)
  {
  }

  lemma {:induction false} OrphansInOrder(files: Files, names: seq<string>, n: nat, down: int, available: seq<bool>)
    requires n <= |names| && DistinctNames(names) && forall k :: 0 <= k < |names| ==> names[k] in files
    ensures var orphans := Orphans(files, names, n, down, available);
            && DistinctNames(orphans)
            && (forall a, x :: 0 <= a < |orphans| && 0 <= x < |names| && names[x] == orphans[a] ==> x < n)
            && (forall a, b, x, y :: (0 <= a < b < |orphans| && 0 <= x < |names| && 0 <= y < |names|
                                      && names[x] == orphans[a] && names[y] == orphans[b]) ==> x < y)
  {
    if n > 0 {
      OrphansInOrder(files, names, n - 1, down, available);
    }
  }

  /** The files that lost a server ask in the order of their slots. */
  lemma {:induction false} DisconnectAsksInOrder(files: Files, names: seq<string>, down: int, available: seq<bool>, queue: seq<Task>)
    requires DistinctNames(names) && forall name :: name in files <==> name in names
    ensures var orphans := Orphans(files, names, |names|, down, available);
            InListOrder(AssignedAll(queue, FailoverAll(files, down, available), orphans, |orphans|), |queue|, names)
  {
    var files' := FailoverAll(files, down, available);
    var orphans := Orphans(files, names, |names|, down, available);
    var q := AssignedAll(queue, files', orphans, |orphans|);
    OrphansInOrder(files, names, |names|, down, available);
    AssignedInOrder(queue, files', orphans, |orphans|);
    AssignedAllMeans(queue, files', orphans, |orphans|);
    hide FailoverAll, Orphans, AssignedAll;
    forall j, k, x, y | (|queue| <= j < k < |q| && 0 <= x < |names| && 0 <= y < |names|
                         && names[x] == q[j].file && names[y] == q[k].file)
      ensures x < y
    {
      assert AskedFor(files', orphans, q[j]) && AskedFor(files', orphans, q[k]);
      var a :| 0 <= a < |orphans| && orphans[a] == q[j].file;
      var b :| 0 <= b < |orphans| && orphans[b] == q[k].file;
      assert a < b;
    }
  }

  /** A synchronisation that the queue refuses. */
  predicate Unschedulable(task: Option<Task>) {
    task.Some? && !task.value.assign && !Schedulable(task.value)
  }

  /** What else the table keeps about a file. */
  datatype Metadata = Metadata(words: nat, chars: nat, lastAccess: int, lastUser: string)

  /** Counts are replaced; a missing access time or user keeps the old one. */
  function Refreshed(m: Metadata, update: Metadata): Metadata {
    Metadata(update.words, update.chars,
             if update.lastAccess != 0 then update.lastAccess else m.lastAccess,
             if update.lastUser != "" then update.lastUser else m.lastUser)
  }

  class NameManager {
    const capacity: nat
    var available: seq<bool>
    var names: seq<string>  // the slots of the file table, in order
    var files: Files
    var metadata: map<string, Metadata>
    const queue: GrowArray<Task>

    ghost predicate Valid()
      reads this, queue
    {
      && queue.Valid() && DistinctNames(names)
      && (forall name :: name in files <==> name in names)
      && (forall name :: name in files <==> name in metadata)
    }

    constructor (available: seq<bool>, capacity: nat)
      ensures Valid() && this.available == available && this.capacity == capacity
      ensures names == [] && files == map[] && metadata == map[] && queue.Items() == []
      ensures fresh(queue) && fresh(queue.data)
    {
      this.available, this.capacity, names, files, metadata := available, capacity, [], map[], map[];
      queue := new GrowArray();
    }

    /** Queues a task unless one that covers it is waiting already. */
    method ScheduleReplication(task: Task) returns (ok: bool)
      requires Valid()
      modifies queue, queue.data
      ensures Valid() && (queue.data == old(queue.data) || fresh(queue.data))
      ensures ok <==> Schedulable(task)
      ensures ok <==> task.file != "" && task.primary >= 0 && (task.assign || task.backup >= 0)
      ensures queue.Items() == Scheduled(old(queue.Items()), task)
    {
      if task.file == "" || task.primary < 0 || (!task.assign && task.backup < 0) {
        return false;
      }
      var i := 0;
      while i < queue.len
        invariant 0 <= i <= queue.len && queue.Valid()
        invariant queue.Items() == old(queue.Items()) && queue.data == old(queue.data)
        invariant forall k :: 0 <= k < i ==> !Covers(queue.Items()[k], task)
      {
        var existing := queue.data[i];
        assert existing == queue.Items()[i];
        if existing.file == task.file {
          if existing.assign && task.assign {
            assert Covers(queue.Items()[i], task);
            return true;
          }
          if !existing.assign && !task.assign && existing.primary == task.primary && existing.backup == task.backup {
            assert Covers(queue.Items()[i], task);
            return true;
          }
        }
        i := i + 1;
      }
      queue.Push(task);
      return true;
    }

    /** The worker's scan for a server that can take a new backup. */
    method PickTarget(primary: int) returns (target: int)
      ensures target == Target(available, primary)
    {
      var i := 0;
      while i < |available|
        invariant 0 <= i <= |available|
        invariant FirstOther(available, primary, i) == Target(available, primary)
      {
        if i != primary && available[i] {
          return i;
        }
        i := i + 1;
      }
      return -1;
    }

    method TryAssignBackup(name: string)
      requires Valid()
      modifies queue, queue.data
      ensures Valid() && (queue.data == old(queue.data) || fresh(queue.data))
      ensures var task := AssignTask(name, files);
              queue.Items() == if task.None? then old(queue.Items()) else Scheduled(old(queue.Items()), task.value)
      ensures name != "" && name in files && files[name].backup < 0 && files[name].primary >= 0 ==>
                HasAssignment(queue.Items(), name)
      ensures !(name != "" && name in files && files[name].backup < 0 && files[name].primary >= 0) ==>
                queue.Items() == old(queue.Items())
    {
      ghost var before := queue.Items();
      AssignTaskMeans(name, files, before);
      if name == "" || name !in files || files[name].backup >= 0 || files[name].primary < 0 {
        return;
      }
      var ok := ScheduleReplication(Task(name, files[name].primary, -1, true));
    }

    /** One slot of the disconnect loop. */
    method FailoverSlot(name: string, down: int) returns (pending: bool)
      requires Valid() && name in files
      modifies this`files
      ensures Valid()
      ensures files == old(files)[name := Failover(old(files)[name], down, available)]
      ensures pending <==> WantsBackup(old(files)[name], down, available)
      ensures pending <==>
                && (old(files)[name].primary == down || old(files)[name].backup == down)
                && files[name].backup < 0 && files[name].primary >= 0
                && exists i :: 0 <= i < |available| && available[i] && i != files[name].primary
    {
      WantsBackupMeans(files[name], down, available);
      var e := files[name];
      var dirty := false;
      if e.primary == down {
        if e.backup >= 0 {
          if Available(available, e.backup) {
            e := e.(primary := e.backup, backup := -1);
          } else {
            e := e.(backup := -1);
          }
        }
        dirty := true;
      }
      if e.backup == down {
        e := e.(backup := -1);
        dirty := true;
      }
      files := files[name := e];
      pending := false;
      if dirty && e.backup < 0 && e.primary >= 0 {
        var target := PickTarget(e.primary);
        pending := target >= 0;
      }
    }

    /** A server's connection drops: promote backups, drop the ones it held, ask for new ones. */
    method HandleDisconnect(down: nat)
      requires Valid() && down < |available|
      modifies this`available, this`files, queue, queue.data
      ensures Valid() && (queue.data == old(queue.data) || fresh(queue.data))
      ensures available == old(available)[down := false]
      ensures files == FailoverAll(old(files), down, available)
      ensures var orphans := Orphans(old(files), names, |names|, down, available);
              queue.Items() == AssignedAll(old(queue.Items()), files, orphans, |orphans|)
      ensures BackupsAsked(old(files), files, down, available, old(queue.Items()), queue.Items())
    {
      hide Failover, FailoverFirst, FailoverAll, WantsBackup, Orphans, BackupsAsked, AssignedAll;
      ghost var before, waiting := files, queue.Items();
      available := available[down := false];
      var pending := FailoverSlots(down);
      FailoverEnd(before, names, down, available);
      AssignPending(pending);
      DisconnectAsks(before, names, down, available, waiting);
    }

    /** Asks for a backup for each file that was left without one. */
    method AssignPending(pending: seq<string>)
      requires Valid()
      modifies queue, queue.data
      ensures Valid() && (queue.data == old(queue.data) || fresh(queue.data))
      ensures queue.Items() == AssignedAll(old(queue.Items()), files, pending, |pending|)
    {
      ghost var start := queue.Items();
      var i := 0;
      while i < |pending|
        invariant i <= |pending| && Valid()
        invariant queue.data == old(queue.data) || fresh(queue.data)
        invariant queue.Items() == AssignedAll(start, files, pending, i)
      {
        TryAssignBackup(pending[i]);
        i := i + 1;
      }
    }

    method FailoverSlots(down: nat) returns (pending: seq<string>)
      requires Valid()
      modifies this`files
      ensures Valid()
      ensures files == FailoverFirst(old(files), names, |names|, down, available)
      ensures pending == Orphans(old(files), names, |names|, down, available)
    {
      hide FailoverFirst, Failover, WantsBackup, Orphans;
      pending := [];
      ghost var before := files;
      FailoverStart(before, names, down, available);
      var i := 0;
      while i < |names|
        invariant 0 <= i <= |names| && Valid()
        invariant files == FailoverFirst(before, names, i, down, available)
        invariant pending == Orphans(before, names, i, down, available)
      {
        FailoverStep(before, names, i, down, available);
        OrphansStep(before, names, i, down, available);
        var wants := FailoverSlot(names[i], down);
        if wants {
          pending := pending + [names[i]];
        }
        i := i + 1;
      }
    }

    /** The server that serves the file now, after a failover if need be; -1 when none does. */
    method SelectStorageServer(name: string) returns (server: int)
      requires Valid() && name in files
      modifies this`files
      ensures Valid()
      ensures files == old(files)[name := Selected(old(files)[name], available).0]
      ensures server == Selected(old(files)[name], available).1
    {
      var e := files[name];
      assert files == files[name := e];
      if e.primary >= 0 && Available(available, e.primary) {
        return e.primary;
      }
      if e.backup >= 0 {
        if Available(available, e.backup) {
          files := files[name := e.(primary := e.backup, backup := -1)];
          return e.backup;
        }
        files := files[name := e.(backup := -1)];
      }
      return -1;
    }

    /** A storage server reports a file's metadata. */
    method HandleFileUpdate(name: string, modified: int, update: Metadata)
      requires Valid()
      modifies this`files, this`metadata, queue, queue.data
      ensures Valid() && (queue.data == old(queue.data) || fresh(queue.data))
      ensures name !in old(files) ==>
                files == old(files) && metadata == old(metadata) && queue.Items() == old(queue.Items())
      ensures name in old(files) ==>
                var e := old(files)[name];
                var task := UpdateTask(name, e, modified, available);
                && files == (if Unschedulable(task) then Failed(old(files)[name := Updated(e, modified)], task.value, e.backup)
                             else old(files)[name := Updated(e, modified)])
                && metadata == old(metadata)[name := Refreshed(old(metadata)[name], update)]
                && queue.Items() == if task.None? then old(queue.Items()) else Scheduled(old(queue.Items()), task.value)
    {
      if name !in files {
        return;
      }
      var previous := files[name].modified;
      UpdateMetadata(name, modified, update);
      var e := files[name];
      assert files == old(files)[name := Updated(old(files)[name], modified)];
      var needSync := e.modified != previous && e.backup >= 0;
      var needAssign := false;
      if e.backup < 0 && e.primary >= 0 {
        var target := PickTarget(e.primary);
        needAssign := target >= 0;
      }
      if needSync {
        var task := Task(name, e.primary, e.backup, false);
        var ok := ScheduleReplication(task);
        if !ok {
          HandleReplicationFailure(task, e.backup);
        }
      } else if needAssign {
        var ok := ScheduleReplication(Task(name, e.primary, -1, true));
      }
    }

    method UpdateMetadata(name: string, modified: int, update: Metadata)
      requires Valid() && name in files
      modifies this`files, this`metadata
      ensures Valid()
      ensures files == old(files)[name := Updated(old(files)[name], modified)]
      ensures metadata == old(metadata)[name := Refreshed(old(metadata)[name], update)]
      ensures files[name].modified == if modified == 0 then old(files)[name].modified else modified
      ensures metadata[name].words == update.words && metadata[name].chars == update.chars
      ensures metadata[name].lastAccess == if update.lastAccess == 0 then old(metadata)[name].lastAccess else update.lastAccess
      ensures metadata[name].lastUser == if update.lastUser == "" then old(metadata)[name].lastUser else update.lastUser
    {
      var m := metadata[name].(words := update.words, chars := update.chars);
      var e := files[name];
      if modified != 0 {
        e := e.(modified := modified);
      }
      if update.lastAccess != 0 {
        m := m.(lastAccess := update.lastAccess);
      }
      if |update.lastUser| > 0 {
        m := m.(lastUser := update.lastUser);
      }
      files := files[name := e];
      metadata := metadata[name := m];
    }

    /** The worker takes the task that has waited longest. */
    method TakeTask() returns (task: Option<Task>)
      requires Valid()
      modifies queue`len, queue.data
      ensures Valid() && queue.data == old(queue.data)
      ensures task.None? <==> old(queue.Items()) == []
      ensures old(queue.Items()) == if task.None? then queue.Items() else [task.value] + queue.Items()
    {
      if queue.len == 0 {
        return None;
      }
      var first := queue.data[0];
      FirstAndRest(queue.Items());
      queue.Remove(0);
      return Some(first);
    }

    /** The worker's first critical section on the file table. */
    method CapturePrimary(task: Task) returns (worker: Worker)
      ensures worker == CaptureTask(files, task)
      ensures worker == if task.file in files && files[task.file].primary == task.primary && task.primary >= 0
                        then Captured(task, task.primary) else Worker.Idle
    {
      var current := -1;
      if task.file in files {
        current := files[task.file].primary;
      }
      if current < 0 || current != task.primary {
        return Worker.Idle;
      }
      return Captured(task, current);
    }

    /** Its second one: check the recorded backup, or look for a new one. */
    method ChooseTarget(task: Task, primary: int) returns (worker: Worker)
      ensures worker == AimTask(files, available, task, primary)
      ensures !task.assign ==>
                worker == if task.file in files && files[task.file].backup == task.backup
                          then Targeted(task, primary, task.backup) else Worker.Idle
      ensures task.assign ==>
                && (worker.Idle? || (worker.Targeted? && worker.task == task && worker.primary == primary))
                && (worker.Idle? ==> forall i :: 0 <= i < |available| ==> !available[i] || i == primary)
                && (worker.Targeted? ==>
                      && 0 <= worker.target < |available| && available[worker.target] && worker.target != primary
                      && forall i :: 0 <= i < worker.target ==> !available[i] || i == primary)
    {
      if !task.assign && (task.file !in files || files[task.file].backup != task.backup) {
        return Worker.Idle;
      }
      var target := task.backup;
      if task.assign {
        target := PickTarget(primary);
        if target < 0 {
          return Worker.Idle;
        }
      }
      return Targeted(task, primary, target);
    }

    /** The worker's last critical section. */
    method FinaliseTask(task: Task, primary: int, target: int)
      requires Valid()
      modifies this`files
      ensures Valid() && files == Finalised(old(files), task, primary, target)
      ensures forall name :: name in old(files) ==>
                && name in files && files[name].primary == old(files)[name].primary
                && files[name].backup == if name == task.file && task.assign && old(files)[name].primary == primary
                                         then target else old(files)[name].backup
    {
      if task.file in files && files[task.file].primary == primary {
        if task.assign {
          files := files[task.file := files[task.file].(backup := target)];
        }
      }
    }

    method HandleReplicationFailure(task: Task, target: int)
      requires Valid() && target >= 0
      modifies this`files, queue, queue.data
      ensures Valid() && (queue.data == old(queue.data) || fresh(queue.data))
      ensures files == Failed(old(files), task, target)
      ensures var assign := if AssignAfterFailure(old(files), task, target) then AssignTask(task.file, files) else None;
              queue.Items() == if assign.None? then old(queue.Items()) else Scheduled(old(queue.Items()), assign.value)
      ensures (task.file in old(files) && task.file != "" && old(files)[task.file].primary >= 0
               && (if task.assign then old(files)[task.file].backup < 0 else old(files)[task.file].backup == target)) ==>
                HasAssignment(queue.Items(), task.file) && files[task.file].backup < 0
      ensures forall name :: name in old(files) ==>
                && name in files && files[name].primary == old(files)[name].primary
                && files[name].backup == if name == task.file && !task.assign && old(files)[name].backup == target
                                         then -1 else old(files)[name].backup
    {
      var needAssign := task.assign;
      if task.file in files && !task.assign && files[task.file].backup == target {
        files := files[task.file := files[task.file].(backup := -1)];
        if files[task.file].primary >= 0 {
          needAssign := true;
        }
      }
      if needAssign {
        TryAssignBackup(task.file);
      }
    }

    /** The backup loop of a CREATE: the first other server that is available and accepts. */
    method PlaceBackup(primary: nat, accepts: seq<bool>) returns (backup: int)
      requires |accepts| == |available|
      ensures backup == -1 || (0 <= backup < |available| && available[backup] && accepts[backup] && backup != primary)
      ensures forall i :: 0 <= i < (if backup == -1 then |available| else backup) ==>
                i == primary || !available[i] || !accepts[i]
    {
      var i := 0;
      while i < |available|
        invariant 0 <= i <= |available|
        invariant forall j :: 0 <= j < i ==> j == primary || !available[j] || !accepts[j]
      {
        if i != primary && available[i] && accepts[i] {
          return i;
        }
        i := i + 1;
      }
      return -1;
    }

    /** Records the new file; refused if the table is full or the name appeared in the meantime. */
    method RecordCreated(name: string, owner: string, primary: nat, backup: int, now: int) returns (ok: bool)
      requires Valid()
      modifies this`files, this`names, this`metadata
      ensures Valid()
      ensures ok <==> |old(names)| < capacity && name !in old(files)
      ensures names == if ok then old(names) + [name] else old(names)
      ensures files == if ok then old(files)[name := FileEntry(primary, backup, now)] else old(files)
      ensures metadata == if ok then old(metadata)[name := Metadata(0, 0, now, owner)] else old(metadata)
    {
      if |names| >= capacity || name in files {
        return false;
      }
      files := files[name := FileEntry(primary, backup, now)];
      metadata := metadata[name := Metadata(0, 0, now, owner)];
      names := names + [name];
      return true;
    }
  }

  lemma {:induction false} FirstAndRest(queue: seq<Task>)
    requires queue != []
    ensures queue == [queue[0]] + (queue[..0] + queue[1..])
  {
  }

  lemma {:induction false} FailoverStart(files: Files, names: seq<string>, down: int, available: seq<bool>)
    requires forall k :: 0 <= k < |names| ==> names[k] in files
    ensures FailoverFirst(files, names, 0, down, available) == files
    ensures Orphans(files, names, 0, down, available) == []
  {
  }

  lemma {:induction false} FailoverEnd(files: Files, names: seq<string>, down: int, available: seq<bool>)
    requires forall name :: name in files <==> name in names
    ensures FailoverFirst(files, names, |names|, down, available) == FailoverAll(files, down, available)
  {
    assert names[..|names|] == names;
  }

  lemma {:induction false} OrphansStep(files: Files, names: seq<string>, i: nat, down: int, available: seq<bool>)
    requires i < |names| && forall k :: 0 <= k < |names| ==> names[k] in files
    ensures Orphans(files, names, i + 1, down, available)
            == Orphans(files, names, i, down, available)
               + (if WantsBackup(files[names[i]], down, available) then [names[i]] else [])
  {
  }

  lemma {:induction false} FailoverStep(files: Files, names: seq<string>, i: nat, down: int, available: seq<bool>)
    requires i < |names| && DistinctNames(names) && names[i] in files
    ensures var first := FailoverFirst(files, names, i, down, available);
            && names[i] in first && first[names[i]] == files[names[i]]
            && FailoverFirst(files, names, i + 1, down, available)
               == first[names[i] := Failover(files[names[i]], down, available)]
  {
    assert names[..i + 1] == names[..i] + [names[i]];
  }
}
