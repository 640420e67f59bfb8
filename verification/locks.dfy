/** Sentence locks and the per-file lock flag, over every interleaving of write sessions. */
module Locks {
  import opened GrowArrays

  datatype Lock = Lock(file: string, sentence: int, user: string)

  predicate SameSentence(a: Lock, file: string, sentence: int) {
    a.file == file && a.sentence == sentence
  }

  /** Index of the first entry for the sentence, or -1. */
  function Find(locks: seq<Lock>, file: string, sentence: int): (k: int)
    ensures -1 <= k < |locks|
    ensures k == -1 <==> forall j :: 0 <= j < |locks| ==> !SameSentence(locks[j], file, sentence)
    ensures k >= 0 ==> SameSentence(locks[k], file, sentence)
                       && forall j :: 0 <= j < k ==> !SameSentence(locks[j], file, sentence)
  {
    if locks == [] then -1
    else if SameSentence(locks[0], file, sentence) then 0
    else
      var k := Find(locks[1..], file, sentence);
      if k < 0 then -1 else k + 1
  }

  function Removed(locks: seq<Lock>, file: string, sentence: int): seq<Lock> {
    var k := Find(locks, file, sentence);
    if k < 0 then locks else locks[..k] + locks[k + 1..]
  }

  /** What is removed: the first entry of that file and sentence, or nothing. */
  lemma {:induction false} RemovedIsFirst(locks: seq<Lock>, file: string, sentence: int) returns (k: nat)
    ensures k <= |locks|
    ensures forall j :: 0 <= j < k ==> locks[j].file != file || locks[j].sentence != sentence
    ensures k < |locks| ==>
              && locks[k].file == file && locks[k].sentence == sentence
              && Removed(locks, file, sentence) == locks[..k] + locks[k + 1..]
    ensures k == |locks| ==> Removed(locks, file, sentence) == locks
  {
    var found := Find(locks, file, sentence);
    k := if found < 0 then |locks| else found;
  }

  class LockTable {
    const entries: GrowArray<Lock>

    ghost predicate Valid()
      reads entries
    {
      entries.Valid()
    }

    constructor ()
      ensures Valid() && entries.Items() == []
      ensures fresh(entries) && fresh(entries.data)
    {
      entries := new GrowArray();
    }

    method FindEntry(file: string, sentence: int) returns (k: int)
      requires Valid()
      ensures k == Find(entries.Items(), file, sentence)
    {
      var i := 0;
      while i < entries.len
        invariant 0 <= i <= entries.len
        invariant forall j :: 0 <= j < i ==> !SameSentence(entries.Items()[j], file, sentence)
      {
        if entries.data[i].sentence == sentence && entries.data[i].file == file {
          assert SameSentence(entries.Items()[i], file, sentence);
          return i;
        }
        i := i + 1;
      }
      return -1;
    }

    /** Fails with "busy" on a sentence that has an entry, whoever owns it. */
    method Acquire(lock: Lock) returns (ok: bool)
      requires Valid()
      modifies entries, entries.data
      ensures Valid() && (entries.data == old(entries.data) || fresh(entries.data))
      ensures ok <==> Find(old(entries.Items()), lock.file, lock.sentence) < 0
      ensures ok <==> forall e :: e in old(entries.Items()) ==> e.file != lock.file || e.sentence != lock.sentence
      ensures entries.Items() == if ok then old(entries.Items()) + [lock] else old(entries.Items())
    {
      var existing := FindEntry(lock.file, lock.sentence);
      if existing >= 0 {
        assert entries.Items()[existing] in entries.Items();
        return false;
      }
      entries.Push(lock);
      return true;
    }

    /** Removes the first entry for the sentence; the user is not looked at. */
    method Release(lock: Lock)
      requires Valid()
      modifies entries`len, entries.data
      ensures Valid() && entries.data == old(entries.data)
      ensures entries.Items() == Removed(old(entries.Items()), lock.file, lock.sentence)
    {
      var k := FindEntry(lock.file, lock.sentence);
      if k >= 0 {
        entries.Remove(k);
      }
    }
  }

  // ---------------------------------------------------------- interleaved sessions

  /** Where a session's thread stands between its atomic steps. `Abandoned` and `Committed`
      have already cleared the flag; `Released` still has its last flag write to do. */
  datatype Phase = Acquired | Editing | Abandoned | Committed | Released(committed: bool)

  datatype Open = Open(lock: Lock, phase: Phase)

  datatype System = System(locks: seq<Lock>, flags: map<string, bool>, open: map<nat, Open>)

  const Idle := System([], map[], map[])

  predicate Flag(s: System, file: string) {
    file in s.flags && s.flags[file]
  }

  datatype Step =
    | Acquire(id: nat, lock: Lock)  // take the sentence lock
    | Announce(id: nat)             // set the file's flag
    | Abandon(id: nat)              // the session cannot start: clear the flag
    | Store(id: nat)                // the commit succeeded: its state update clears the flag
    | Release(id: nat)              // give the sentence lock back
    | Finish(id: nat)               // clear the flag on the way out

  predicate At(s: System, id: nat, phase: Phase) {
    id in s.open && s.open[id].phase == phase
  }

  predicate Holds(s: System, id: nat) {
    id in s.open && !s.open[id].phase.Released?
  }

  predicate Enabled(s: System, step: Step) {
    match step
    case Acquire(id, lock) => id !in s.open && Find(s.locks, lock.file, lock.sentence) < 0
    case Announce(id) => At(s, id, Acquired)
    case Abandon(id) => At(s, id, Editing)
    case Store(id) => At(s, id, Editing)
    case Release(id) => At(s, id, Editing) || At(s, id, Abandoned) || At(s, id, Committed)
    case Finish(id) => At(s, id, Released(true)) || At(s, id, Released(false))
  }

  function Moved(s: System, id: nat, phase: Phase): System
    requires id in s.open
  {
    s.(open := s.open[id := s.open[id].(phase := phase)])
  }

  function SetFlag(s: System, file: string, active: bool): System {
    s.(flags := s.flags[file := active])
  }

  /** A step that is not enabled leaves the system alone. */
  function Apply(s: System, step: Step): System {
    if !Enabled(s, step) then s
    else
      match step
      case Acquire(id, lock) => s.(locks := s.locks + [lock], open := s.open[id := Open(lock, Acquired)])
      case Announce(id) => SetFlag(Moved(s, id, Editing), s.open[id].lock.file, true)
      case Abandon(id) => SetFlag(Moved(s, id, Abandoned), s.open[id].lock.file, false)
      case Store(id) => SetFlag(Moved(s, id, Committed), s.open[id].lock.file, false)
      case Release(id) =>
        var lock := s.open[id].lock;
        var freed := s.(locks := Removed(s.locks, lock.file, lock.sentence));
        if s.open[id].phase == Abandoned then freed.(open := freed.open - {id})
        else Moved(freed, id, Released(s.open[id].phase == Committed))
      case Finish(id) => SetFlag(s, s.open[id].lock.file, false).(open := s.open - {id})
  }

  function After(steps: seq<Step>, n: nat): System
    requires n <= |steps|
  {
    if n == 0 then Idle else Apply(After(steps, n - 1), steps[n - 1])
  }

  predicate HoldsLock(s: System, id: nat, lock: Lock) {
    Holds(s, id) && s.open[id].lock == lock
  }

  ghost predicate Owned(s: System, lock: Lock) {
    exists id :: HoldsLock(s, id, lock)
  }

  /** Entries and lock-holding sessions correspond one to one, and no sentence occurs twice. */
  ghost predicate Matched(s: System) {
    && (forall k :: 0 <= k < |s.locks| ==> Owned(s, s.locks[k]))
    && (forall id :: Holds(s, id) ==> s.open[id].lock in s.locks)
    && (forall j, k :: 0 <= j < |s.locks| && 0 <= k < |s.locks| && j != k ==>
          !SameSentence(s.locks[j], s.locks[k].file, s.locks[k].sentence))
    && (forall a, b :: Holds(s, a) && Holds(s, b) && a != b ==>
          !SameSentence(s.open[a].lock, s.open[b].lock.file, s.open[b].lock.sentence))
  }

  lemma {:induction false} OwnEntry(s: System, id: nat) returns (k: nat)
    requires Matched(s) && Holds(s, id)
    ensures k < |s.locks| && s.locks[k] == s.open[id].lock
    ensures Find(s.locks, s.open[id].lock.file, s.open[id].lock.sentence) == k
  {
    var lock := s.open[id].lock;
    k :| 0 <= k < |s.locks| && s.locks[k] == lock;
    var found := Find(s.locks, lock.file, lock.sentence);
    assert SameSentence(s.locks[k], lock.file, lock.sentence);
  }

  lemma {:induction false} AcquireKeepsMatched(s: System, id: nat, lock: Lock)
    requires Matched(s) && Enabled(s, Acquire(id, lock))
    ensures Matched(Apply(s, Acquire(id, lock)))
  {
    var s' := Apply(s, Acquire(id, lock));
    forall k | 0 <= k < |s'.locks| ensures Owned(s', s'.locks[k]) {
      if k == |s.locks| {
        assert HoldsLock(s', id, lock);
      } else {
        assert Owned(s, s.locks[k]);
        var x :| HoldsLock(s, x, s.locks[k]);
        assert HoldsLock(s', x, s.locks[k]);
      }
    }
    forall x | Holds(s', x) ensures s'.open[x].lock in s'.locks {
      if x == id {
        assert s'.locks[|s.locks|] == lock;
      } else {
        assert Holds(s, x);
      }
    }
    forall a, b | Holds(s', a) && Holds(s', b) && a != b
      ensures !SameSentence(s'.open[a].lock, s'.open[b].lock.file, s'.open[b].lock.sentence)
    {
      if a != id { assert Holds(s, a); }
      if b != id { assert Holds(s, b); }
    }
  }

  lemma {:induction false} MoveKeepsMatched(s: System, s': System)
    requires Matched(s) && s'.locks == s.locks
    requires forall id :: Holds(s', id) ==> HoldsLock(s, id, s'.open[id].lock)
    requires forall id :: Holds(s, id) ==> HoldsLock(s', id, s.open[id].lock)
    ensures Matched(s')
  {
    forall k | 0 <= k < |s'.locks| ensures Owned(s', s'.locks[k]) {
      assert Owned(s, s.locks[k]);
      var x :| HoldsLock(s, x, s.locks[k]);
      assert HoldsLock(s', x, s.locks[k]);
    }
    forall a, b | Holds(s', a) && Holds(s', b) && a != b
      ensures !SameSentence(s'.open[a].lock, s'.open[b].lock.file, s'.open[b].lock.sentence)
    {
      assert Holds(s, a) && Holds(s, b);
    }
  }

  /** `t` is `s` without session `id` and its entry, which is at position `k`. */
  ghost predicate Without(s: System, t: System, id: nat, k: nat) {
    && k < |s.locks| && HoldsLock(s, id, s.locks[k])
    && |t.locks| == |s.locks| - 1
    && (forall j :: 0 <= j < |t.locks| ==> t.locks[j] == s.locks[if j < k then j else j + 1])
    && (forall x :: Holds(t, x) ==> x != id && HoldsLock(s, x, t.open[x].lock))
    && (forall x :: Holds(s, x) && x != id ==> HoldsLock(t, x, s.open[x].lock))
  }

  lemma {:induction false} RemovedEntriesOwned(s: System, t: System, id: nat, k: nat, j: nat)
    requires Matched(s) && Without(s, t, id, k) && j < |t.locks|
    ensures Owned(t, t.locks[j])
  {
    var i := if j < k then j else j + 1;
    assert t.locks[j] == s.locks[i] && Owned(s, s.locks[i]);
    var x :| HoldsLock(s, x, s.locks[i]);
    assert !SameSentence(s.locks[i], s.locks[k].file, s.locks[k].sentence);
    assert HoldsLock(t, x, t.locks[j]);
  }

  lemma {:induction false} RemainingHoldersListed(s: System, t: System, id: nat, k: nat, x: nat)
    requires Matched(s) && Without(s, t, id, k) && Holds(t, x)
    ensures t.open[x].lock in t.locks
  {
    var i := OwnEntry(s, x);
    assert !SameSentence(s.open[x].lock, s.open[id].lock.file, s.open[id].lock.sentence);
    assert t.locks[if i < k then i else i - 1] == s.locks[i];
  }

  lemma {:induction false} RemoveKeepsMatched(s: System, t: System, id: nat, k: nat)
    requires Matched(s) && Without(s, t, id, k)
    ensures Matched(t)
  {
    forall j | 0 <= j < |t.locks| ensures Owned(t, t.locks[j]) {
      RemovedEntriesOwned(s, t, id, k, j);
    }
    forall x | Holds(t, x) ensures t.open[x].lock in t.locks {
      RemainingHoldersListed(s, t, id, k, x);
    }
    forall a, b | Holds(t, a) && Holds(t, b) && a != b
      ensures !SameSentence(t.open[a].lock, t.open[b].lock.file, t.open[b].lock.sentence)
    {
      assert HoldsLock(s, a, t.open[a].lock) && HoldsLock(s, b, t.open[b].lock);
    }
  }

  lemma {:induction false} ReleaseIsWithout(s: System, id: nat, k: nat)
    requires Enabled(s, Release(id)) && k < |s.locks| && s.locks[k] == s.open[id].lock
    requires Find(s.locks, s.open[id].lock.file, s.open[id].lock.sentence) == k
    ensures Without(s, Apply(s, Release(id)), id, k)
    ensures Apply(s, Release(id)).locks == s.locks[..k] + s.locks[k + 1..]
  {
    hide Find;
    var t := Apply(s, Release(id));
    forall j | 0 <= j < |t.locks| ensures t.locks[j] == s.locks[if j < k then j else j + 1] {}
    forall x | Holds(t, x) ensures x != id && HoldsLock(s, x, t.open[x].lock) {}
    forall x | Holds(s, x) && x != id ensures HoldsLock(t, x, s.open[x].lock) {}
  }

  /** A release takes out the releasing session's own entry and nothing else. */
  lemma {:induction false} ReleaseRemovesOwn(s: System, id: nat) returns (k: nat)
    requires Matched(s) && Enabled(s, Release(id))
    ensures k < |s.locks| && s.locks[k] == s.open[id].lock
    ensures Apply(s, Release(id)).locks == s.locks[..k] + s.locks[k + 1..]
    ensures Matched(Apply(s, Release(id)))
  {
    k := OwnEntry(s, id);
    ReleaseIsWithout(s, id, k);
    hide Matched, Holds, Find;
    RemoveKeepsMatched(s, Apply(s, Release(id)), id, k);
  }

  lemma {:induction false} ApplyKeepsMatched(s: System, step: Step)
    requires Matched(s)
    ensures Matched(Apply(s, step))
  {
    if Enabled(s, step) {
      match step
      case Acquire(id, lock) => AcquireKeepsMatched(s, id, lock);
      case Release(id) => var k := ReleaseRemovesOwn(s, id);
      case _ => MoveKeepsMatched(s, Apply(s, step));
    }
  }

  /** In every interleaving the table mirrors the sessions that hold a lock, and no two of
      them hold the same sentence. */
  lemma {:induction false} LocksMatchSessions(steps: seq<Step>, n: nat)
    requires n <= |steps|
    ensures Matched(After(steps, n))
  {
    if n > 0 {
      LocksMatchSessions(steps, n - 1);
      ApplyKeepsMatched(After(steps, n - 1), steps[n - 1]);
    }
  }

  /** Two sessions that hold a lock at the same time differ in file or sentence. */
  lemma {:induction false} NoSharedSentence(steps: seq<Step>, n: nat, a: nat, b: nat)
    requires n <= |steps| && a != b && Holds(After(steps, n), a) && Holds(After(steps, n), b)
    ensures var s := After(steps, n);
            s.open[a].lock.file != s.open[b].lock.file || s.open[a].lock.sentence != s.open[b].lock.sentence
  {
    LocksMatchSessions(steps, n);
  }

  // --------------------------------------------------------------- the lock flag

  /** The session has set the flag and has not cleared it itself. */
  predicate Announced(s: System, id: nat, file: string) {
    id in s.open && s.open[id].lock.file == file
    && (s.open[id].phase == Editing || s.open[id].phase == Released(false))
  }

  /** A raised flag means that some session on the file is still open. */
  lemma {:induction false} FlagNeedsSession(steps: seq<Step>, n: nat, file: string)
    requires n <= |steps|
    ensures Flag(After(steps, n), file) ==> exists id :: Announced(After(steps, n), id, file)
  {
    if n > 0 {
      FlagNeedsSession(steps, n - 1, file);
      var s, step := After(steps, n - 1), steps[n - 1];
      var s' := Apply(s, step);
      assert After(steps, n) == s';
      if Flag(s', file) && Enabled(s, step) {
        if step.Announce? && s.open[step.id].lock.file == file {
          assert Announced(s', step.id, file);
        } else {
          var id :| Announced(s, id, file);
          assert Announced(s', id, file);
        }
      }
    }
  }

  predicate AtMostOne(s: System, file: string) {
    forall a, b :: a in s.open && b in s.open && s.open[a].lock.file == file == s.open[b].lock.file ==> a == b
  }

  /** While no two sessions on the file ever overlap, the flag is raised exactly from a
      session's announcement until it clears the flag. */
  lemma {:induction false} FlagExactWhenAlone(steps: seq<Step>, n: nat, file: string)
    requires n <= |steps|
    requires forall k :: 0 <= k <= n ==> AtMostOne(After(steps, k), file)
    ensures Flag(After(steps, n), file) <==> exists id :: Announced(After(steps, n), id, file)
  {
    FlagNeedsSession(steps, n, file);
    if n > 0 {
      FlagExactWhenAlone(steps, n - 1, file);
      var s, step := After(steps, n - 1), steps[n - 1];
      var s' := Apply(s, step);
      assert After(steps, n) == s' && AtMostOne(s, file) && AtMostOne(s', file);
      forall id | Announced(s', id, file) ensures Flag(s', file) {
        AloneKeepsFlag(s, step, id, file);
      }
    }
  }

  lemma {:induction false} AloneKeepsFlag(s: System, step: Step, id: nat, file: string)
    requires AtMostOne(s, file) && Announced(Apply(s, step), id, file)
    requires Announced(s, id, file) ==> Flag(s, file)
    ensures Flag(Apply(s, step), file)
  {
    if Enabled(s, step) {
      if step.id == id {
        assert step.Announce? || (step.Release? && Announced(s, id, file));
      } else {
        assert Announced(s, id, file);
        assert step.Acquire? || s.open[step.id].lock.file != file;
      }
    }
  }

  predicate Clears(s: System, step: Step, file: string) {
    Enabled(s, step) && (step.Abandon? || step.Store? || step.Finish?) && s.open[step.id].lock.file == file
  }

  predicate Raises(s: System, step: Step, file: string) {
    Enabled(s, step) && step.Announce? && s.open[step.id].lock.file == file
  }

  lemma {:induction false} StepWritesFlag(s: System, step: Step, file: string)
    ensures Flag(Apply(s, step), file) == if Raises(s, step, file) then true
                                          else if Clears(s, step, file) then false else Flag(s, file)
  {
  }

  /** Step `r` announced a session on the file and no step since then cleared the flag. */
  predicate RaisedSince(steps: seq<Step>, r: nat, n: nat, file: string)
    requires r < n <= |steps|
  {
    Raises(After(steps, r), steps[r], file)
    && forall k :: r < k < n ==> !Clears(After(steps, k), steps[k], file)
  }

  lemma {:induction false} RaisedSinceStep(steps: seq<Step>, r: nat, n: nat, file: string)
    requires r < n < |steps|
    ensures RaisedSince(steps, r, n + 1, file)
            <==> RaisedSince(steps, r, n, file) && !Clears(After(steps, n), steps[n], file)
  {
  }

  lemma {:induction false} RaisedJustNow(steps: seq<Step>, m: nat, file: string)
    requires m < |steps|
    ensures RaisedSince(steps, m, m + 1, file) <==> Raises(After(steps, m), steps[m], file)
  {
  }

  lemma {:induction false} FlagStep(steps: seq<Step>, m: nat, file: string)
    requires m < |steps|
    ensures Flag(After(steps, m + 1), file)
            <==> Raises(After(steps, m), steps[m], file) || (Flag(After(steps, m), file) && !Clears(After(steps, m), steps[m], file))
  {
    var s, step := After(steps, m), steps[m];
    assert After(steps, m + 1) == Apply(s, step);
    StepWritesFlag(s, step, file);
    assert Raises(s, step, file) ==> !Clears(s, step, file);
  }

  lemma {:induction false} RaisedSomeTime(steps: seq<Step>, m: nat, n: nat, file: string)
    requires m + 1 == n <= |steps|
    ensures (exists r :: 0 <= r < n && RaisedSince(steps, r, n, file))
            <==> Raises(After(steps, m), steps[m], file)
                 || ((exists r :: 0 <= r < m && RaisedSince(steps, r, m, file)) && !Clears(After(steps, m), steps[m], file))
  {
    hide *;
    RaisedJustNow(steps, m, file);
    assert RaisedSince(steps, m, n, file) <==> Raises(After(steps, m), steps[m], file);
    forall r | 0 <= r < m
      ensures RaisedSince(steps, r, n, file) <==> RaisedSince(steps, r, m, file) && !Clears(After(steps, m), steps[m], file)
    {
      RaisedSinceStep(steps, r, m, file);
    }
  }

  /** The flag is up exactly when some announcement has not been followed by a clearing step
      of any session on the file, its own or another one's. */
  lemma {:induction false} FlagUpIff(steps: seq<Step>, n: nat, file: string)
    requires n <= |steps|
    ensures Flag(After(steps, n), file) <==> exists r :: 0 <= r < n && RaisedSince(steps, r, n, file)
  {
    if n > 0 {
      hide *;
      var m := n - 1;
      FlagUpIff(steps, m, file);
      FlagStep(steps, m, file);
      RaisedSomeTime(steps, m, n, file);
    }
  }

  const Ann := Lock("f", 0, "ann")
  const Bob := Lock("f", 1, "bob")

  lemma {:induction false} TwoWritersOpen() returns (s: System)
    ensures s == Apply(Apply(Apply(Apply(Idle, Acquire(1, Ann)), Announce(1)), Acquire(2, Bob)), Announce(2))
    ensures s.open == map[1 := Open(Ann, Editing), 2 := Open(Bob, Editing)]
  {
    var s1 := Apply(Idle, Acquire(1, Ann));
    assert s1.locks == [Ann] && s1.open == map[1 := Open(Ann, Acquired)];
    var s2 := Apply(s1, Announce(1));
    assert s2.locks == [Ann] && s2.open == map[1 := Open(Ann, Editing)];
    var s3 := Apply(s2, Acquire(2, Bob));
    assert s3.open == map[1 := Open(Ann, Editing), 2 := Open(Bob, Acquired)];
    s := Apply(s3, Announce(2));
  }

  lemma {:induction false} FirstWriterLeaves(s: System) returns (t: System)
    requires s.open == map[1 := Open(Ann, Editing), 2 := Open(Bob, Editing)]
    ensures t == Apply(Apply(s, Release(1)), Finish(1))
    ensures t.open == map[2 := Open(Bob, Editing)] && !Flag(t, "f")
  {
    var s5 := Apply(s, Release(1));
    assert s5.open == map[1 := Open(Ann, Released(false)), 2 := Open(Bob, Editing)];
    t := Apply(s5, Finish(1));
  }

  /** The flag is one per file, so it does not guard every write in progress: here a second
      writer is editing sentence 1 when the first one ends, and the flag is down. */
  lemma {:induction false} FlagMissesSecondWriter() returns (steps: seq<Step>)
    ensures At(After(steps, |steps|), 2, Editing)
    ensures After(steps, |steps|).open[2].lock.file == "f" && !Flag(After(steps, |steps|), "f")
  {
    steps := [Acquire(1, Ann), Announce(1), Acquire(2, Bob), Announce(2), Release(1), Finish(1)];
    var s := TwoWritersOpen();
    var t := FirstWriterLeaves(s);
    assert After(steps, 2) == Apply(Apply(After(steps, 0), steps[0]), steps[1]);
    assert After(steps, 4) == Apply(Apply(After(steps, 2), steps[2]), steps[3]) == s;
    assert After(steps, 6) == Apply(Apply(After(steps, 4), steps[4]), steps[5]) == t;
  }
}
