/** The exact boundary of what the replication queue keeps. In runs that are calm but for one kind
    of lapse, can everything drain with a backup that misses an update, and with no task left to
    repair it? A server that comes or goes does that exactly when it displaces the first candidate
    for a backup; a failing call, or a second update within a recorded second, exactly when there
    is a candidate at all. */
module LostUpdate {
  import opened Coalescing
  import opened Placement
  import opened Wrappers

  predicate ChangesServers(step: Step) {
    step.Register? || step.Disconnect? || step.MarkDown?
  }

  /** What is not calm about a run: one server that comes or goes, calls that fail, or updates
      in a second that the name manager has recorded for the file already. */
  datatype Lapse = Change(e: Step) | FailingCalls | SameSecond

  predicate Lapses(s: System, step: Step, l: Lapse) {
    match l
    case Change(e) => step == e
    case FailingCalls => step.Fail?
    case SameSecond =>
      && step.Write? && step.file in s.files && step.server == s.files[step.file].primary
      && (step.server, step.file) in s.store
      && step.now > 0 && step.now >= s.store[(step.server, step.file)].modified
      && step.now == s.files[step.file].modified
  }

  /** A step that is calm with the servers as they are, or a lapse. All files are created on
      server `p`. */
  ghost predicate Allowed(s: System, step: Step, p: nat, l: Lapse) {
    && (Lapses(s, step, l) || (Calm(s, step) && !ChangesServers(step) && !step.Fail?))
    && (step.CreatePrimary? ==> step.server == p)
  }

  ghost predicate RunWith(available: seq<bool>, p: nat, l: Lapse, steps: seq<Step>, states: seq<System>) {
    Run(available, steps, states) && forall k :: 0 <= k < |steps| ==> Allowed(states[k], steps[k], p, l)
  }

  ghost predicate Reaches(available: seq<bool>, p: nat, l: Lapse, s: System) {
    exists steps, states :: RunWith(available, p, l, steps, states) && states[|steps|] == s
  }

  predicate Stale(s: System, file: string) {
    && file in s.files && s.files[file].backup >= 0
    && var e := s.files[file];
       !((e.primary, file) in s.store && (e.backup, file) in s.store
         && s.store[(e.backup, file)].text == s.store[(e.primary, file)].text)
  }

  /** Some run drains with a recorded backup that is not the primary's text. */
  ghost predicate LosesUpdate(available: seq<bool>, p: nat, l: Lapse) {
    exists s, file :: Reaches(available, p, l, s) && Drained(s) && Stale(s, file)
  }

  /** `e` makes a server come or go that is not `p`. */
  predicate IsChange(available: seq<bool>, p: nat, e: Step) {
    || (e.Register? && e.server <= |available|)
    || ((e.Disconnect? || e.MarkDown?) && e.server < |available| && e.server != p)
  }

  lemma {:induction false} StartReached(available: seq<bool>, p: nat, l: Lapse)
    ensures Reaches(available, p, l, Boot(available))
  {
    assert RunWith(available, p, l, [], [Boot(available)]);
  }

  lemma {:induction false} Then(available: seq<bool>, p: nat, l: Lapse, s: System, step: Step, t: System)
    requires Reaches(available, p, l, s)
    requires Enabled(s, step) && Allowed(s, step, p, l) && Apply(s, step) == t
    ensures Reaches(available, p, l, t)
  {
    hide Enabled, Apply, Allowed;
    var steps, states :| RunWith(available, p, l, steps, states) && states[|steps|] == s;
    RunOneMore(available, steps, states, step);
    StillAllowed(p, l, steps, states, step, t);
    assert RunWith(available, p, l, steps + [step], states + [t]);
  }

  lemma {:induction false} StillAllowed(p: nat, l: Lapse, steps: seq<Step>, states: seq<System>, step: Step, t: System)
    requires |states| == |steps| + 1 && Allowed(states[|steps|], step, p, l)
    requires forall k :: 0 <= k < |steps| ==> Allowed(states[k], steps[k], p, l)
    ensures var steps', states' := steps + [step], states + [t];
            states'[|steps'|] == t && forall k :: 0 <= k < |steps'| ==> Allowed(states'[k], steps'[k], p, l)
  {
    hide Allowed;
  }

  // -------------------------------------------------------------------- no update lost

  predicate Confined(s: System, available: seq<bool>, p: nat, e: Step) {
    && (s.available == available || s.available == ServersAfter(available, e))
    && (forall file :: file in s.files ==> s.files[file].primary == p)
    && (forall c :: c in s.creations ==> c.primary == p)
  }

  predicate KeepsCandidate(available: seq<bool>, p: nat, e: Step) {
    Target(available, p) < 0 || Target(ServersAfter(available, e), p) == Target(available, p)
  }

  lemma {:induction false} ChangeIsCalm(s: System, available: seq<bool>, p: nat, e: Step)
    requires Tracked(s) && Confined(s, available, p, e) && IsChange(available, p, e) && KeepsCandidate(available, p, e)
    ensures Calm(s, e)
  {
    forall t: Task | InFlight(s, t) && t.assign && Target(s.available, t.primary) >= 0
      ensures Target(ServersAfter(s.available, e), t.primary) == Target(s.available, t.primary)
    {
      InFlightTaskOk(s, t);
      assert s.files[t.file].primary == p;
      assert ServersAfter(ServersAfter(available, e), e) == ServersAfter(available, e);
    }
  }

  lemma {:induction false} ChangeStaysConfined(s: System, available: seq<bool>, p: nat, e: Step)
    requires Tracked(s) && Confined(s, available, p, e) && IsChange(available, p, e) && Enabled(s, e) && Calm(s, e)
    ensures Confined(Apply(s, e), available, p, e)
  {
    ChangeIsServersChanged(s, e);
    assert Apply(s, e).available == ServersAfter(s.available, e);
    assert ServersAfter(ServersAfter(available, e), e) == ServersAfter(available, e);
    hide Apply, Enabled, Calm, KeepsAims;
  }

  lemma {:induction false} FixedKeepsServers(s: System, step: Step)
    requires Enabled(s, step) && !ChangesServers(step)
    ensures Apply(s, step).available == s.available
    ensures forall c :: c in Apply(s, step).creations ==>
              || c in s.creations
              || (step.CreatePrimary? && c.primary == step.server)
              || (step.CreateBackup? && step.creation in s.creations && c.primary == step.creation.primary)
  {
  }

  lemma {:induction false} FixedStaysConfined(s: System, step: Step, available: seq<bool>, p: nat, e: Step)
    requires Tracked(s) && Confined(s, available, p, e) && Enabled(s, step)
    requires !ChangesServers(step) && (step.CreatePrimary? ==> step.server == p)
    ensures Confined(Apply(s, step), available, p, e)
  {
    var s' := Apply(s, step);
    FixedKeepsServers(s, step);
    forall file | file in s'.files ensures s'.files[file].primary == p {
      if file in s.files {
        assert FileOk(s, file);
        PrimaryMovesToBackup(s, step, file);
      } else {
        NewEntry(s, step, file);
      }
    }
  }

  lemma {:induction false} ConfinedRun(available: seq<bool>, p: nat, e: Step, steps: seq<Step>, states: seq<System>, k: nat)
    requires RunWith(available, p, Change(e), steps, states) && k < |states|
    requires IsChange(available, p, e) && KeepsCandidate(available, p, e)
    ensures Tracked(states[k]) && Confined(states[k], available, p, e)
  {
    if k > 0 {
      ConfinedRun(available, p, e, steps, states, k - 1);
      var s, step := states[k - 1], steps[k - 1];
      assert Enabled(s, step) && states[k] == Apply(s, step) && Allowed(s, step, p, Change(e));
      if step == e {
        ChangeIsCalm(s, available, p, e);
        ChangeStaysConfined(s, available, p, e);
      } else {
        FixedStaysConfined(s, step, available, p, e);
      }
      hide Apply, Enabled, Tracked, Confined, Run;
      StepKeepsTracked(s, step);
    }
  }

  lemma {:induction false} KeptCandidateLosesNothing(available: seq<bool>, p: nat, e: Step)
    requires IsChange(available, p, e) && KeepsCandidate(available, p, e)
    ensures !LosesUpdate(available, p, Change(e))
  {
    forall s, file | Reaches(available, p, Change(e), s) && Drained(s) && file in s.files && s.files[file].backup >= 0
      ensures !Stale(s, file)
    {
      var steps, states :| RunWith(available, p, Change(e), steps, states) && states[|steps|] == s;
      ConfinedRun(available, p, e, steps, states, |steps|);
      hide Tracked, RunWith, Confined, Drained;
      TrackedAndDrained(s, file);
    }
  }

  // ------------------------------------------------------------------- an update lost

  /** Servers before and after the change, and the candidates for files on `primary`. */
  datatype Scene = Scene(before: seq<bool>, lapse: Lapse, primary: nat, first: nat)

  predicate Proper(c: Scene) {
    Available(c.before, c.primary) && Target(c.before, c.primary) == c.first
  }

  function Assign(c: Scene): Task {
    Task("f", c.primary, -1, true)
  }

  function Sync(c: Scene): Task {
    Task("f", c.primary, c.first, false)
  }

  function Early(c: Scene, messages: multiset<Message>, handlers: multiset<Task>, queue: seq<Task>, worker: Worker): System {
    System(c.before, map["f" := FileEntry(c.primary, -1, 1)], map[(c.primary as int, "f") := Copy("", 1)],
           messages, handlers, queue, worker, {})
  }

  /** The first copy is on server `first`; the primary has `text`. */
  function Copied(c: Scene, available: seq<bool>, entry: FileEntry, text: string, modified: int,
                  messages: multiset<Message>, handlers: multiset<Task>, queue: seq<Task>, worker: Worker): System {
    System(available, map["f" := entry],
           map[(c.primary as int, "f") := Copy(text, modified), (c.first as int, "f") := Copy("", 1)],
           messages, handlers, queue, worker, {})
  }

  ghost predicate Reached(c: Scene, s: System) {
    Reaches(c.before, c.primary, c.lapse, s)
  }

  lemma {:induction false} Next(c: Scene, s: System, step: Step, t: System)
    requires Reached(c, s)
    requires Enabled(s, step) && Allowed(s, step, c.primary, c.lapse) && Apply(s, step) == t
    ensures Reached(c, t)
  {
    Then(c.before, c.primary, c.lapse, s, step, t);
  }

  /** The file is created without a backup: the other server's create call is refused or fails. */
  lemma {:induction false} FileIsCreated(c: Scene)
    requires Proper(c)
    ensures Reached(c, Early(c, multiset{}, multiset{}, [], Idle))
  {
    StartReached(c.before, c.primary, c.lapse);
    assert Reached(c, Boot(c.before));
    hide Reached;
    var creation := Creation("f", c.primary, -1);
    var s1 := Boot(c.before).(store := map[(c.primary as int, "f") := Copy("", 1)], creations := {creation});
    Next(c, Boot(c.before), CreatePrimary("f", c.primary, 1), s1);
    Next(c, s1, FinishCreate(creation, 1), Early(c, multiset{}, multiset{}, [], Idle));
  }

  /** Somebody reads it; the report finds no backup and asks for an assignment. */
  lemma {:induction false} AssignmentAsked(c: Scene)
    requires Proper(c) && Reached(c, Early(c, multiset{}, multiset{}, [], Idle))
    ensures Reached(c, Early(c, multiset{}, multiset{Assign(c)}, [], Idle))
  {
    hide Reached;
    var s2 := Early(c, multiset{Message("f", 1)}, multiset{}, [], Idle);
    Next(c, Early(c, multiset{}, multiset{}, [], Idle), Read(c.primary, "f"), s2);
    Next(c, s2, Receive(Message("f", 1)), Early(c, multiset{}, multiset{Assign(c)}, [], Idle));
  }

  /** It is queued and taken up. */
  lemma {:induction false} AssignmentTaken(c: Scene)
    requires Proper(c) && Reached(c, Early(c, multiset{}, multiset{Assign(c)}, [], Idle))
    ensures Reached(c, Early(c, multiset{}, multiset{}, [], Taken(Assign(c))))
  {
    hide Reached;
    var s4 := Early(c, multiset{}, multiset{}, [Assign(c)], Idle);
    Next(c, Early(c, multiset{}, multiset{Assign(c)}, [], Idle), Enqueue(Assign(c)), s4);
    Next(c, s4, Take, Early(c, multiset{}, multiset{}, [], Taken(Assign(c))));
  }

  /** The worker reads the empty text; the read is reported. */
  lemma {:induction false} EmptyTextFetched(c: Scene)
    requires Proper(c) && Reached(c, Early(c, multiset{}, multiset{}, [], Taken(Assign(c))))
    ensures Reached(c, Early(c, multiset{Message("f", 1)}, multiset{}, [], Fetched(Assign(c), c.primary, c.first, "")))
  {
    hide Reached;
    var s4 := Early(c, multiset{}, multiset{}, [], Captured(Assign(c), c.primary));
    var s5 := Early(c, multiset{}, multiset{}, [], Targeted(Assign(c), c.primary, c.first));
    Next(c, Early(c, multiset{}, multiset{}, [], Taken(Assign(c))), Capture, s4);
    Next(c, s4, Aim, s5);
    Next(c, s5, Fetch, Early(c, multiset{Message("f", 1)}, multiset{}, [], Fetched(Assign(c), c.primary, c.first, "")));
  }

  /** The report finds no backup yet and queues a second assignment. */
  lemma {:induction false} AssignmentAskedAgain(c: Scene)
    requires Proper(c)
    requires Reached(c, Early(c, multiset{Message("f", 1)}, multiset{}, [], Fetched(Assign(c), c.primary, c.first, "")))
    ensures Reached(c, Early(c, multiset{}, multiset{}, [Assign(c)], Fetched(Assign(c), c.primary, c.first, "")))
  {
    hide Reached;
    var w := Fetched(Assign(c), c.primary, c.first, "");
    var s6 := Early(c, multiset{Message("f", 1)}, multiset{}, [], w);
    var s7 := Early(c, multiset{}, multiset{Assign(c)}, [], w);
    Next(c, s6, Receive(Message("f", 1)), s7);
    Next(c, s7, Enqueue(Assign(c)), Early(c, multiset{}, multiset{}, [Assign(c)], w));
  }

  /** The empty copy is stored; before that is recorded the first update is written. */
  lemma {:induction false} FirstWrite(c: Scene)
    requires Proper(c)
    requires Reached(c, Early(c, multiset{}, multiset{}, [Assign(c)], Fetched(Assign(c), c.primary, c.first, "")))
    ensures Reached(c, Copied(c, c.before, FileEntry(c.primary, -1, 1), "v1", 10,
                              multiset{Message("f", 10)}, multiset{}, [Assign(c)], Worker.Stored(Assign(c), c.primary, c.first)))
  {
    hide Reached;
    var w := Worker.Stored(Assign(c), c.primary, c.first);
    var s8 := Copied(c, c.before, FileEntry(c.primary, -1, 1), "", 1, multiset{}, multiset{}, [Assign(c)], w);
    Next(c, Early(c, multiset{}, multiset{}, [Assign(c)], Fetched(Assign(c), c.primary, c.first, "")), Save(1), s8);
    Next(c, s8, Write(c.primary, "f", "v1", 10),
         Copied(c, c.before, FileEntry(c.primary, -1, 1), "v1", 10, multiset{Message("f", 10)}, multiset{}, [Assign(c)], w));
  }

  /** An assignment is stored but not recorded, and the update is merged into the waiting one. */
  function Merged(c: Scene, available: seq<bool>): System {
    Copied(c, available, FileEntry(c.primary, -1, 10), "v1", 10, multiset{}, multiset{}, [Assign(c)],
           Worker.Stored(Assign(c), c.primary, c.first))
  }

  lemma {:induction false} UpdateMerged(c: Scene)
    requires Proper(c)
    requires Reached(c, Copied(c, c.before, FileEntry(c.primary, -1, 1), "v1", 10,
                               multiset{Message("f", 10)}, multiset{}, [Assign(c)], Worker.Stored(Assign(c), c.primary, c.first)))
    ensures Reached(c, Merged(c, c.before))
  {
    hide Reached;
    var w := Worker.Stored(Assign(c), c.primary, c.first);
    var s9 := Copied(c, c.before, FileEntry(c.primary, -1, 1), "v1", 10, multiset{Message("f", 10)}, multiset{}, [Assign(c)], w);
    var s10 := Copied(c, c.before, FileEntry(c.primary, -1, 10), "v1", 10, multiset{}, multiset{Assign(c)}, [Assign(c)], w);
    Next(c, s9, Receive(Message("f", 10)), s10);
    assert Covers([Assign(c)][0], Assign(c));
    Next(c, s10, Enqueue(Assign(c)), Merged(c, c.before));
  }

  lemma {:induction false} MergedReached(c: Scene)
    requires Proper(c)
    ensures Reached(c, Merged(c, c.before))
  {
    hide Reached, Early, Copied, Merged;
    FileIsCreated(c);
    AssignmentAsked(c);
    AssignmentTaken(c);
    EmptyTextFetched(c);
    AssignmentAskedAgain(c);
    FirstWrite(c);
    UpdateMerged(c);
  }

  /** The change comes now; then the first assignment is recorded and the second one is taken up. */
  function Backed(c: Scene, available: seq<bool>, queue: seq<Task>, worker: Worker): System {
    Copied(c, available, FileEntry(c.primary, c.first, 10), "v1", 10, multiset{}, multiset{}, queue, worker)
  }

  lemma {:induction false} ServersChangeNow(c: Scene, e: Step)
    requires Proper(c) && c.lapse == Change(e) && IsChange(c.before, c.primary, e) && Reached(c, Merged(c, c.before))
    ensures Reached(c, Merged(c, ServersAfter(c.before, e)))
  {
    hide Reached;
    Next(c, Merged(c, c.before), e, Merged(c, ServersAfter(c.before, e)));
  }

  lemma {:induction false} SecondTaken(c: Scene, available: seq<bool>)
    requires Reached(c, Merged(c, available))
    ensures Reached(c, Backed(c, available, [Assign(c)], Idle))
    ensures Reached(c, Backed(c, available, [], Captured(Assign(c), c.primary)))
  {
    hide Reached;
    Next(c, Merged(c, available), Finalise, Backed(c, available, [Assign(c)], Idle));
    Next(c, Backed(c, available, [Assign(c)], Idle), Take, Backed(c, available, [], Taken(Assign(c))));
    Next(c, Backed(c, available, [], Taken(Assign(c))), Capture, Backed(c, available, [], Captured(Assign(c), c.primary)));
  }

  /** Without any candidate left the second assignment is dropped, and the update with it. */
  lemma {:induction false} NobodyLeft(c: Scene, available: seq<bool>)
    requires Reached(c, Backed(c, available, [], Captured(Assign(c), c.primary))) && Target(available, c.primary) < 0
    ensures Reached(c, Backed(c, available, [], Idle))
  {
    hide Reached;
    Next(c, Backed(c, available, [], Captured(Assign(c), c.primary)), Aim, Backed(c, available, [], Idle));
  }

  /** Server `second` has got the first update. */
  function Moving(c: Scene, available: seq<bool>, second: nat, entry: FileEntry, text: string, modified: int,
                  messages: multiset<Message>, handlers: multiset<Task>, queue: seq<Task>, worker: Worker): System {
    var s := Copied(c, available, entry, text, modified, messages, handlers, queue, worker);
    s.(store := s.store[(second as int, "f") := Copy("v1", 5)])
  }

  predicate Displaced(c: Scene, available: seq<bool>, second: nat) {
    && Proper(c) && Available(available, c.primary)
    && Target(available, c.primary) == second && second != c.first
  }

  /** Another candidate gets the first update instead. */
  lemma {:induction false} UpdateFetched(c: Scene, available: seq<bool>, second: nat)
    requires Displaced(c, available, second)
    requires Reached(c, Backed(c, available, [], Captured(Assign(c), c.primary)))
    ensures Reached(c, Backed(c, available, [], Fetched(Assign(c), c.primary, second, "v1")))
  {
    hide Reached;
    var s1 := Backed(c, available, [], Targeted(Assign(c), c.primary, second));
    var s2 := Backed(c, available, [], Fetched(Assign(c), c.primary, second, "v1")).(messages := multiset{Message("f", 10)});
    Next(c, Backed(c, available, [], Captured(Assign(c), c.primary)), Aim, s1);
    Next(c, s1, Fetch, s2);
    Next(c, s2, Receive(Message("f", 10)), Backed(c, available, [], Fetched(Assign(c), c.primary, second, "v1")));
  }

  /** It is stored there, but not yet recorded. */
  function Copying(c: Scene, available: seq<bool>, second: nat, modified: int, text: string, written: int,
                   messages: multiset<Message>, handlers: multiset<Task>, queue: seq<Task>): System {
    Moving(c, available, second, FileEntry(c.primary, c.first, modified), text, written, messages, handlers, queue,
           Worker.Stored(Assign(c), c.primary, second))
  }

  lemma {:induction false} UpdateSaved(c: Scene, available: seq<bool>, second: nat)
    requires Displaced(c, available, second)
    requires Reached(c, Backed(c, available, [], Fetched(Assign(c), c.primary, second, "v1")))
    ensures Reached(c, Copying(c, available, second, 10, "v1", 10, multiset{}, multiset{}, []))
  {
    hide Reached;
    Next(c, Backed(c, available, [], Fetched(Assign(c), c.primary, second, "v1")), Save(5),
         Copying(c, available, second, 10, "v1", 10, multiset{}, multiset{}, []));
  }

  lemma {:induction false} SecondWriteApplies(c: Scene, available: seq<bool>, second: nat)
    requires Displaced(c, available, second)
    ensures var s, step := Copying(c, available, second, 10, "v1", 10, multiset{}, multiset{}, []), Write(c.primary, "f", "v2", 20);
            Enabled(s, step)
            && Apply(s, step) == Copying(c, available, second, 10, "v2", 20, multiset{Message("f", 20)}, multiset{}, [])
  {
    WriteKeepsOtherCopies((c.primary as int, "f"), (c.first as int, "f"), (second as int, "f"));
  }

  lemma {:induction false} WriteKeepsOtherCopies(p: (int, string), q: (int, string), r: (int, string))
    requires p != q && p != r
    ensures var was: Store := map[p := Copy("v1", 10), q := Copy("", 1)];
            var now: Store := map[p := Copy("v2", 20), q := Copy("", 1)];
            p in was[r := Copy("v1", 5)] && was[r := Copy("v1", 5)][p := Copy("v2", 20)] == now[r := Copy("v1", 5)]
  {
  }

  lemma {:induction false} SecondWrite(c: Scene, available: seq<bool>, second: nat)
    requires Displaced(c, available, second)
    requires Reached(c, Copying(c, available, second, 10, "v1", 10, multiset{}, multiset{}, []))
    ensures Reached(c, Copying(c, available, second, 10, "v2", 20, multiset{Message("f", 20)}, multiset{}, []))
  {
    SecondWriteApplies(c, available, second);
    hide Reached, Apply;
    Next(c, Copying(c, available, second, 10, "v1", 10, multiset{}, multiset{}, []), Write(c.primary, "f", "v2", 20),
         Copying(c, available, second, 10, "v2", 20, multiset{Message("f", 20)}, multiset{}, []));
  }

  /** The second update asks to synchronise the backup of the moment. */
  lemma {:induction false} SecondUpdateHeard(c: Scene, available: seq<bool>, second: nat)
    requires Displaced(c, available, second)
    requires Reached(c, Copying(c, available, second, 10, "v2", 20, multiset{Message("f", 20)}, multiset{}, []))
    ensures Reached(c, Copying(c, available, second, 20, "v2", 20, multiset{}, multiset{Sync(c)}, []))
  {
    hide Reached;
    Next(c, Copying(c, available, second, 10, "v2", 20, multiset{Message("f", 20)}, multiset{}, []), Receive(Message("f", 20)),
         Copying(c, available, second, 20, "v2", 20, multiset{}, multiset{Sync(c)}, []));
  }

  /** Then the backup moves. */
  lemma {:induction false} BackupMoves(c: Scene, available: seq<bool>, second: nat)
    requires Displaced(c, available, second)
    requires Reached(c, Copying(c, available, second, 20, "v2", 20, multiset{}, multiset{Sync(c)}, []))
    ensures Reached(c, Moving(c, available, second, FileEntry(c.primary, second, 20), "v2", 20, multiset{}, multiset{}, [Sync(c)], Idle))
  {
    hide Reached;
    var queued := Copying(c, available, second, 20, "v2", 20, multiset{}, multiset{}, [Sync(c)]);
    Next(c, Copying(c, available, second, 20, "v2", 20, multiset{}, multiset{Sync(c)}, []), Enqueue(Sync(c)), queued);
    Next(c, queued, Finalise,
         Moving(c, available, second, FileEntry(c.primary, second, 20), "v2", 20, multiset{}, multiset{}, [Sync(c)], Idle));
  }

  /** The worker finds another backup recorded and drops the synchronisation. */
  lemma {:induction false} SyncDropped(c: Scene, available: seq<bool>, second: nat)
    requires Displaced(c, available, second)
    requires Reached(c, Moving(c, available, second, FileEntry(c.primary, second, 20), "v2", 20, multiset{}, multiset{}, [Sync(c)], Idle))
    ensures Reached(c, Moving(c, available, second, FileEntry(c.primary, second, 20), "v2", 20, multiset{}, multiset{}, [], Idle))
  {
    hide Reached;
    var entry := FileEntry(c.primary, second, 20);
    var s1 := Moving(c, available, second, entry, "v2", 20, multiset{}, multiset{}, [], Taken(Sync(c)));
    var s2 := Moving(c, available, second, entry, "v2", 20, multiset{}, multiset{}, [], Captured(Sync(c), c.primary));
    Next(c, Moving(c, available, second, entry, "v2", 20, multiset{}, multiset{}, [Sync(c)], Idle), Take, s1);
    Next(c, s1, Capture, s2);
    Next(c, s2, Aim, Moving(c, available, second, entry, "v2", 20, multiset{}, multiset{}, [], Idle));
  }

  lemma {:induction false} BackedIsStale(c: Scene, available: seq<bool>)
    requires Proper(c)
    ensures Drained(Backed(c, available, [], Idle)) && Stale(Backed(c, available, [], Idle), "f")
  {
  }

  lemma {:induction false} MovedIsStale(c: Scene, available: seq<bool>, second: nat)
    requires Displaced(c, available, second)
    ensures var s := Moving(c, available, second, FileEntry(c.primary, second, 20), "v2", 20, multiset{}, multiset{}, [], Idle);
            Drained(s) && Stale(s, "f")
  {
    assert "v1"[1] != "v2"[1];
  }

  lemma {:induction false} DisplacedCandidateLoses(available: seq<bool>, p: nat, e: Step)
    requires Available(available, p) && IsChange(available, p, e) && !KeepsCandidate(available, p, e)
    ensures LosesUpdate(available, p, Change(e))
  {
    var c, after := Scene(available, Change(e), p, Target(available, p)), ServersAfter(available, e);
    assert Available(after, p);
    MergedReached(c);
    ServersChangeNow(c, e);
    SecondTaken(c, after);
    var second := Target(after, p);
    if second < 0 {
      NobodyLeft(c, after);
      BackedIsStale(c, after);
    } else {
      UpdateFetched(c, after, second);
      UpdateSaved(c, after, second);
      SecondWrite(c, after, second);
      SecondUpdateHeard(c, after, second);
      BackupMoves(c, after, second);
      SyncDropped(c, after, second);
      MovedIsStale(c, after, second);
    }
  }

  /** One server other than the primary comes or goes. Some run, calm otherwise, drains with a
      stale backup exactly when this displaces the first candidate there was before. */
  lemma {:induction false} LosesUpdateIff(available: seq<bool>, p: nat, e: Step)
    requires Available(available, p) && IsChange(available, p, e)
    ensures LosesUpdate(available, p, Change(e))
            <==> Target(available, p) >= 0 && Target(ServersAfter(available, e), p) != Target(available, p)
  {
    if KeepsCandidate(available, p, e) {
      KeptCandidateLosesNothing(available, p, e);
    } else {
      DisplacedCandidateLoses(available, p, e);
    }
  }

  // ------------------------------------------------------------------ failing calls

  /** With no candidate at all no backup is ever recorded, and the worker never gets to a call. */
  ghost predicate Lonely(s: System, available: seq<bool>, p: nat) {
    && s.available == available
    && (forall file :: file in s.files ==> s.files[file].primary == p && s.files[file].backup == -1)
    && (forall c :: c in s.creations ==> c.primary == p && c.backup == -1)
    && (forall k :: 0 <= k < |s.queue| ==> s.queue[k].assign || s.queue[k].backup >= 0)
    && match s.worker
       case Idle => true
       case Taken(t) => t.assign || t.backup >= 0
       case Captured(t, primary) => primary == p && (t.assign || t.backup >= 0)
       case _ => false
  }

  lemma {:induction false} NoOther(available: seq<bool>, p: nat, i: int)
    requires Target(available, p) < 0 && Available(available, i)
    ensures i == p
  {
  }

  lemma {:induction false} FilesStayLonely(s: System, step: Step, available: seq<bool>, p: nat, file: string)
    requires Lonely(s, available, p) && Available(available, p)
    requires Enabled(s, step) && !ChangesServers(step) && file in Apply(s, step).files
    ensures Apply(s, step).files[file].primary == p && Apply(s, step).files[file].backup == -1
  {
    if file in s.files {
      EntryMoves(s, step, file);
    } else {
      NewEntry(s, step, file);
    }
  }

  lemma {:induction false} CreationsStayLonely(s: System, step: Step, available: seq<bool>, p: nat)
    requires Lonely(s, available, p) && Available(available, p) && Target(available, p) < 0
    requires Enabled(s, step) && !ChangesServers(step) && (step.CreatePrimary? ==> step.server == p)
    ensures Apply(s, step).available == available
    ensures forall c :: c in Apply(s, step).creations ==> c.primary == p && c.backup == -1
  {
    if step.CreateBackup? {
      NoOther(available, p, step.server);
    }
  }

  lemma {:induction false} QueueStaysLonely(s: System, step: Step, available: seq<bool>, p: nat)
    requires Lonely(s, available, p) && Enabled(s, step)
    ensures var queue := Apply(s, step).queue;
            forall k :: 0 <= k < |queue| ==> queue[k].assign || queue[k].backup >= 0
  {
  }

  lemma {:induction false} WorkerStaysLonely(s: System, step: Step, available: seq<bool>, p: nat)
    requires Lonely(s, available, p) && Target(available, p) < 0 && Enabled(s, step)
    ensures match Apply(s, step).worker
            case Idle => true
            case Taken(t) => t.assign || t.backup >= 0
            case Captured(t, primary) => primary == p && (t.assign || t.backup >= 0)
            case _ => false
  {
  }

  lemma {:induction false} StaysLonely(s: System, step: Step, available: seq<bool>, p: nat)
    requires Lonely(s, available, p) && Available(available, p) && Target(available, p) < 0
    requires Enabled(s, step) && !ChangesServers(step) && (step.CreatePrimary? ==> step.server == p)
    ensures Lonely(Apply(s, step), available, p)
  {
    QueueStaysLonely(s, step, available, p);
    WorkerStaysLonely(s, step, available, p);
    CreationsStayLonely(s, step, available, p);
    forall file | file in Apply(s, step).files
      ensures Apply(s, step).files[file].primary == p && Apply(s, step).files[file].backup == -1
    {
      FilesStayLonely(s, step, available, p, file);
    }
    hide Apply, Enabled, Target;
  }

  lemma {:induction false} LonelyRun(available: seq<bool>, p: nat, l: Lapse, steps: seq<Step>, states: seq<System>, k: nat)
    requires RunWith(available, p, l, steps, states) && k < |states| && !l.Change?
    requires Available(available, p) && Target(available, p) < 0
    ensures Lonely(states[k], available, p)
  {
    if k > 0 {
      LonelyRun(available, p, l, steps, states, k - 1);
      assert Enabled(states[k - 1], steps[k - 1]) && states[k] == Apply(states[k - 1], steps[k - 1]);
      assert Allowed(states[k - 1], steps[k - 1], p, l);
      StaysLonely(states[k - 1], steps[k - 1], available, p);
    }
  }

  lemma {:induction false} LonelyLosesNothing(available: seq<bool>, p: nat, l: Lapse)
    requires Available(available, p) && Target(available, p) < 0 && !l.Change?
    ensures !LosesUpdate(available, p, l)
  {
    forall s, file | Reaches(available, p, l, s) && Drained(s) && file in s.files ensures s.files[file].backup == -1 {
      var steps, states :| RunWith(available, p, l, steps, states) && states[|steps|] == s;
      LonelyRun(available, p, l, steps, states, |steps|);
    }
  }

  /** The second assignment fails after the update was merged into it: nobody asks again,
      because the file has a backup by now. */
  lemma {:induction false} FailedAssignment(c: Scene)
    requires Proper(c) && c.lapse == FailingCalls && Reached(c, Backed(c, c.before, [], Captured(Assign(c), c.primary)))
    ensures Reached(c, Backed(c, c.before, [], Idle))
  {
    hide Reached;
    var s := Backed(c, c.before, [], Targeted(Assign(c), c.primary, c.first));
    Next(c, Backed(c, c.before, [], Captured(Assign(c), c.primary)), Aim, s);
    Next(c, s, Fail, Backed(c, c.before, [], Idle));
  }

  /** Runs with fixed servers in which any call may fail lose an update exactly when there is a
      candidate for a backup at all. */
  lemma {:induction false} FailureLosesUpdateIff(available: seq<bool>, p: nat)
    requires Available(available, p)
    ensures LosesUpdate(available, p, FailingCalls) <==> Target(available, p) >= 0
  {
    if Target(available, p) >= 0 {
      var c := Scene(available, FailingCalls, p, Target(available, p));
      MergedReached(c);
      SecondTaken(c, available);
      FailedAssignment(c);
      BackedIsStale(c, available);
    } else {
      LonelyLosesNothing(available, p, FailingCalls);
    }
  }

  // -------------------------------------------------------- two updates in one second

  /** The file has its backup from the start; `kept` is what the backup holds. */
  function Paired(c: Scene, recorded: int, text: string, modified: int, kept: string,
                  messages: multiset<Message>, handlers: multiset<Task>, queue: seq<Task>, worker: Worker): System {
    System(c.before, map["f" := FileEntry(c.primary, c.first, recorded)],
           map[(c.primary as int, "f") := Copy(text, modified), (c.first as int, "f") := Copy(kept, 1)],
           messages, handlers, queue, worker, {})
  }

  lemma {:induction false} PairIsCreated(c: Scene)
    requires Proper(c)
    ensures Reached(c, Paired(c, 1, "", 1, "", multiset{}, multiset{}, [], Idle))
  {
    StartReached(c.before, c.primary, c.lapse);
    assert Reached(c, Boot(c.before));
    hide Reached;
    var alone, placed := Creation("f", c.primary, -1), Creation("f", c.primary, c.first);
    var s0 := Boot(c.before);
    var s1 := s0.(store := map[(c.primary as int, "f") := Copy("", 1)], creations := {alone});
    var s2 := s0.(store := map[(c.primary as int, "f") := Copy("", 1), (c.first as int, "f") := Copy("", 1)], creations := {placed});
    Next(c, s0, CreatePrimary("f", c.primary, 1), s1);
    Next(c, s1, CreateBackup(alone, c.first, 1), s2);
    Next(c, s2, FinishCreate(placed, 1), Paired(c, 1, "", 1, "", multiset{}, multiset{}, [], Idle));
  }

  /** The first update is written, reported, and asks for a synchronisation. */
  lemma {:induction false} FirstOfSecond(c: Scene)
    requires Proper(c) && Reached(c, Paired(c, 1, "", 1, "", multiset{}, multiset{}, [], Idle))
    ensures Reached(c, Paired(c, 10, "v1", 10, "", multiset{}, multiset{Sync(c)}, [], Idle))
  {
    hide Reached;
    var s1 := Paired(c, 1, "v1", 10, "", multiset{Message("f", 10)}, multiset{}, [], Idle);
    Next(c, Paired(c, 1, "", 1, "", multiset{}, multiset{}, [], Idle), Write(c.primary, "f", "v1", 10), s1);
    Next(c, s1, Receive(Message("f", 10)), Paired(c, 10, "v1", 10, "", multiset{}, multiset{Sync(c)}, [], Idle));
  }

  lemma {:induction false} SyncTaken(c: Scene)
    requires Proper(c) && Reached(c, Paired(c, 10, "v1", 10, "", multiset{}, multiset{Sync(c)}, [], Idle))
    ensures Reached(c, Paired(c, 10, "v1", 10, "", multiset{}, multiset{}, [], Taken(Sync(c))))
  {
    hide Reached;
    var s1 := Paired(c, 10, "v1", 10, "", multiset{}, multiset{}, [Sync(c)], Idle);
    Next(c, Paired(c, 10, "v1", 10, "", multiset{}, multiset{Sync(c)}, [], Idle), Enqueue(Sync(c)), s1);
    Next(c, s1, Take, Paired(c, 10, "v1", 10, "", multiset{}, multiset{}, [], Taken(Sync(c))));
  }

  lemma {:induction false} SyncCaptured(c: Scene)
    requires Proper(c) && Reached(c, Paired(c, 10, "v1", 10, "", multiset{}, multiset{}, [], Taken(Sync(c))))
    ensures Reached(c, Paired(c, 10, "v1", 10, "", multiset{}, multiset{}, [], Captured(Sync(c), c.primary)))
  {
    hide Reached;
    var s2 := Paired(c, 10, "v1", 10, "", multiset{}, multiset{}, [], Taken(Sync(c)));
    Next(c, s2, Capture, Paired(c, 10, "v1", 10, "", multiset{}, multiset{}, [], Captured(Sync(c), c.primary)));
  }

  /** The worker reads the first update. */
  lemma {:induction false} FirstFetched(c: Scene)
    requires Proper(c) && Reached(c, Paired(c, 10, "v1", 10, "", multiset{}, multiset{}, [], Captured(Sync(c), c.primary)))
    ensures Reached(c, Paired(c, 10, "v1", 10, "", multiset{}, multiset{}, [], Fetched(Sync(c), c.primary, c.first, "v1")))
  {
    hide Reached;
    var w := Fetched(Sync(c), c.primary, c.first, "v1");
    var s1 := Paired(c, 10, "v1", 10, "", multiset{}, multiset{}, [], Targeted(Sync(c), c.primary, c.first));
    var s2 := Paired(c, 10, "v1", 10, "", multiset{Message("f", 10)}, multiset{}, [], w);
    Next(c, Paired(c, 10, "v1", 10, "", multiset{}, multiset{}, [], Captured(Sync(c), c.primary)), Aim, s1);
    Next(c, s1, Fetch, s2);
    Next(c, s2, Receive(Message("f", 10)), Paired(c, 10, "v1", 10, "", multiset{}, multiset{}, [], w));
  }

  /** The second update comes within the same second; its report changes nothing. */
  lemma {:induction false} SecondOfSecond(c: Scene)
    requires Proper(c) && c.lapse == SameSecond
    requires Reached(c, Paired(c, 10, "v1", 10, "", multiset{}, multiset{}, [], Fetched(Sync(c), c.primary, c.first, "v1")))
    ensures Reached(c, Paired(c, 10, "v2", 10, "", multiset{}, multiset{}, [], Fetched(Sync(c), c.primary, c.first, "v1")))
  {
    hide Reached;
    var w := Fetched(Sync(c), c.primary, c.first, "v1");
    var s1 := Paired(c, 10, "v2", 10, "", multiset{Message("f", 10)}, multiset{}, [], w);
    Next(c, Paired(c, 10, "v1", 10, "", multiset{}, multiset{}, [], w), Write(c.primary, "f", "v2", 10), s1);
    Next(c, s1, Receive(Message("f", 10)), Paired(c, 10, "v2", 10, "", multiset{}, multiset{}, [], w));
  }

  /** The backup gets the first one. */
  lemma {:induction false} FirstSaved(c: Scene)
    requires Proper(c)
    requires Reached(c, Paired(c, 10, "v2", 10, "", multiset{}, multiset{}, [], Fetched(Sync(c), c.primary, c.first, "v1")))
    ensures Reached(c, Paired(c, 10, "v2", 10, "v1", multiset{}, multiset{}, [], Idle))
  {
    hide Reached;
    var s1 := Paired(c, 10, "v2", 10, "v1", multiset{}, multiset{}, [], Worker.Stored(Sync(c), c.primary, c.first));
    Next(c, Paired(c, 10, "v2", 10, "", multiset{}, multiset{}, [], Fetched(Sync(c), c.primary, c.first, "v1")), Save(10), s1);
    Next(c, s1, Finalise, Paired(c, 10, "v2", 10, "v1", multiset{}, multiset{}, [], Idle));
  }

  lemma {:induction false} PairedIsStale(c: Scene)
    requires Proper(c)
    ensures Drained(Paired(c, 10, "v2", 10, "v1", multiset{}, multiset{}, [], Idle))
    ensures Stale(Paired(c, 10, "v2", 10, "v1", multiset{}, multiset{}, [], Idle), "f")
  {
    assert "v1"[1] != "v2"[1];
  }

  /** Runs with fixed servers, no failing call and a clock that does not run back, in which a file
      may be updated again in the second that is recorded for it, lose an update exactly when
      there is a candidate for a backup at all. */
  lemma {:induction false} SameSecondLosesUpdateIff(available: seq<bool>, p: nat)
    requires Available(available, p)
    ensures LosesUpdate(available, p, SameSecond) <==> Target(available, p) >= 0
  {
    if Target(available, p) >= 0 {
      var c := Scene(available, SameSecond, p, Target(available, p));
      hide Reached, Paired, Sync, Stale, Drained;
      PairIsCreated(c);
      FirstOfSecond(c);
      SyncTaken(c);
      SyncCaptured(c);
      FirstFetched(c);
      SecondOfSecond(c);
      FirstSaved(c);
      PairedIsStale(c);
      ReachedStaleLoses(c, Paired(c, 10, "v2", 10, "v1", multiset{}, multiset{}, [], Idle), "f");
    } else {
      LonelyLosesNothing(available, p, SameSecond);
    }
  }

  lemma {:induction false} ReachedStaleLoses(c: Scene, s: System, file: string)
    requires Reached(c, s) && Drained(s) && Stale(s, file)
    ensures LosesUpdate(c.before, c.primary, c.lapse)
  {
  }

  // ------------------------------------------------------ backups on servers that are down

  /** For all servers and every file's first candidate: it can disconnect between being stored
      and being recorded, and is then a backup that is not available. */
  lemma {:induction false} LateAssignmentHappens(available: seq<bool>, p: nat) returns (s: System)
    requires Available(available, p) && Target(available, p) >= 0
    ensures var d := Target(available, p);
            Reaches(available, p, Change(Disconnect(d)), s) && Names(s, "f", d) && !Available(s.available, d)
  {
    var d := Target(available, p);
    var c := Scene(available, Change(Disconnect(d)), p, d);
    MergedReached(c);
    ServersChangeNow(c, Disconnect(d));
    SecondTaken(c, available[d := false]);
    s := Backed(c, available[d := false], [Assign(c)], Idle);
  }

  /** The same for a creation that has placed its backup already. */
  lemma {:induction false} LateCreationHappens(available: seq<bool>, p: nat, d: nat) returns (s: System)
    requires Available(available, p) && Available(available, d) && d != p
    ensures Reaches(available, p, Change(Disconnect(d)), s) && Names(s, "f", d) && !Available(s.available, d)
  {
    var e, boot := Disconnect(d), Boot(available);
    var alone, placed := Creation("f", p, -1), Creation("f", p, d);
    var one: Store := map[(p as int, "f") := Copy("", 1)];
    var two: Store := map[(p as int, "f") := Copy("", 1), (d as int, "f") := Copy("", 1)];
    StartReached(available, p, Change(e));
    hide Reaches;
    var s1 := boot.(store := one, creations := {alone});
    var s2 := boot.(store := two, creations := {placed});
    var s3 := s2.(available := available[d := false]);
    s := s3.(files := map["f" := FileEntry(p, d, 1)], creations := {});
    Then(available, p, Change(e), boot, CreatePrimary("f", p, 1), s1);
    Then(available, p, Change(e), s1, CreateBackup(alone, d, 1), s2);
    Then(available, p, Change(e), s2, e, s3);
    Then(available, p, Change(e), s3, FinishCreate(placed, 1), s);
  }
}
