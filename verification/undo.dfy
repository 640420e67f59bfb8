/** The single-level undo slot of a stored file, over whole runs of commits, reverts, syncs
    and undos. */
module Undo {
  import opened Text
  import opened TextOps
  import opened Merge
  import opened Wrappers
  import opened WriteSessions

  datatype FileError = Locked | Missing

  datatype Outcome = Done(words: nat, chars: nat) | Refused(error: FileError)

  datatype Doc = Doc(text: string, undo: Option<string>)

  /** One operation; the lock flag is what the operation finds at that moment. */
  datatype Event =
    | CommitEvent(session: Session)
    | RevertEvent(checkpoint: Option<string>, locked: bool)
    | SyncEvent(content: string)
    | UndoEvent(locked: bool)

  const Created := Doc("", None)

  function Step(doc: Doc, e: Event): Doc {
    match e
    case CommitEvent(s) =>
      var merged := Commit(doc.text, s);
      if merged.None? then doc else Doc(merged.value, Some(doc.text))
    case RevertEvent(checkpoint, locked) =>
      if checkpoint.None? || locked then doc else Doc(checkpoint.value, Some(doc.text))
    case SyncEvent(content) => Doc(content, Some(doc.text))
    case UndoEvent(locked) =>
      if locked || doc.undo.None? then doc else Doc(doc.undo.value, None)
  }

  ghost function View(file: StoredFile): Doc
    reads file
  {
    Doc(file.Content(), file.undo)
  }

  /** Restores the undo file over the data file and removes it. */
  method PerformUndo(file: StoredFile) returns (outcome: Outcome)
    requires file.Valid()
    modifies file`data, file`undo
    ensures file.Valid()
    ensures outcome.Refused? ==> file.data == old(file.data) && file.undo == old(file.undo)
    ensures View(file) == Step(old(View(file)), UndoEvent(file.lockActive))
    ensures outcome == Refused(Locked) <==> file.lockActive
    ensures outcome == Refused(Missing) <==> !file.lockActive && old(file.undo) == None
    ensures outcome.Done? ==> file.data == old(file.undo) && file.undo == None
                              && outcome == Done(|Words(file.Content())|, |file.Content()|)
  {
    if file.lockActive {
      return Refused(Locked);
    }
    if file.undo == None {
      return Refused(Missing);
    }
    file.data := file.undo;
    file.undo := None;
    var words := CountWords(file.Content());
    return Done(words, |file.Content()|);
  }

  /** Puts a checkpoint's content in place; the text it replaces goes to the undo file. */
  method RevertCheckpoint(file: StoredFile, checkpoint: Option<string>) returns (outcome: Outcome)
    requires file.Valid() && (checkpoint.Some? ==> Terminated(checkpoint.value))
    modifies file`data, file`undo
    ensures file.Valid()
    ensures outcome.Refused? ==> file.data == old(file.data) && file.undo == old(file.undo)
    ensures View(file) == Step(old(View(file)), RevertEvent(checkpoint, file.lockActive))
    ensures outcome == Refused(Missing) <==> checkpoint == None
    ensures outcome == Refused(Locked) <==> checkpoint.Some? && file.lockActive
    ensures outcome.Done? ==> file.data == checkpoint && file.undo == Some(old(file.Content()))
                              && outcome == Done(|Words(file.Content())|, |file.Content()|)
  {
    if checkpoint == None {
      return Refused(Missing);
    }
    if file.lockActive {
      return Refused(Locked);
    }
    file.undo := Some(file.Content());
    file.data := checkpoint;
    var words := CountWords(checkpoint.value);
    return Done(words, |checkpoint.value|);
  }

  /** Stores the content a backup pulled from the primary. It does not look at the lock flag. */
  method StoreSynced(file: StoredFile, content: string) returns (words: nat, chars: nat)
    requires file.Valid() && Terminated(content)
    modifies file`data, file`undo
    ensures file.Valid()
    ensures View(file) == Step(old(View(file)), SyncEvent(content))
    ensures file.data == Some(content) && file.undo == Some(old(file.Content()))
    ensures words == |Words(content)| && chars == |content|
  {
    file.undo := Some(file.Content());
    file.data := Some(content);
    words := CountWords(content);
    chars := |content|;
  }

  // ------------------------------------------------------------------ whole runs

  /** The file after the first `n` operations since its creation. */
  function After(es: seq<Event>, n: nat): Doc
    requires n <= |es|
  {
    if n == 0 then Created else Step(After(es, n - 1), es[n - 1])
  }

  /** Operation `m` stored a new text: a commit without conflict, a permitted revert, a sync. */
  predicate Mutates(es: seq<Event>, m: nat)
    requires m < |es|
  {
    match es[m]
    case CommitEvent(s) => s.baseline == "" || s.baseline in Split(After(es, m).text)
    case RevertEvent(checkpoint, locked) => checkpoint.Some? && !locked
    case SyncEvent(_) => true
    case UndoEvent(_) => false
  }

  /** Operation `m` is an undo that went through. */
  predicate Undone(es: seq<Event>, m: nat)
    requires m < |es|
  {
    es[m].UndoEvent? && !es[m].locked && After(es, m).undo.Some?
  }

  lemma {:induction false} CommitMutates(text: string, s: Session)
    ensures Commit(text, s).Some? <==> s.baseline == "" || s.baseline in Split(text)
  {
    var k := CommitShape(text, s);
  }

  lemma {:induction false} StepEffect(es: seq<Event>, m: nat)
    requires m < |es|
    ensures Mutates(es, m) ==> After(es, m + 1).undo == Some(After(es, m).text)
    ensures Undone(es, m) ==> After(es, m + 1) == Doc(After(es, m).undo.value, None)
    ensures !Mutates(es, m) && !Undone(es, m) ==> After(es, m + 1) == After(es, m)
  {
    if es[m].CommitEvent? {
      CommitMutates(After(es, m).text, es[m].session);
    }
  }

  lemma {:induction false} UndoneWasFilled(es: seq<Event>, m: nat)
    requires m < |es| && Undone(es, m)
    ensures After(es, m + 1).undo == None && !Mutates(es, m)
  {
  }

  /** The slot is filled exactly when some mutation came after creation and every undo. */
  lemma {:induction false} UndoSlotPresence(es: seq<Event>, n: nat)
    requires n <= |es|
    ensures After(es, n).undo.Some? <==>
            exists m :: 0 <= m < n && Mutates(es, m) && forall k :: m < k < n ==> !Undone(es, k)
  {
    hide Mutates, Undone;
    if n > 0 {
      UndoSlotPresence(es, n - 1);
      StepEffect(es, n - 1);
      if Undone(es, n - 1) {
        UndoneWasFilled(es, n - 1);
      }
      hide After;
      if !Mutates(es, n - 1) && After(es, n).undo.Some? {
        var m :| 0 <= m < n - 1 && Mutates(es, m) && forall k :: m < k < n - 1 ==> !Undone(es, k);
        assert forall k :: m < k < n ==> !Undone(es, k);
      }
    }
  }

  /** It holds the text from just before the latest mutation. */
  lemma {:induction false} UndoSlotContent(es: seq<Event>, m: nat, n: nat)
    requires m < n <= |es| && Mutates(es, m)
    requires forall k :: m < k < n ==> !Mutates(es, k) && !Undone(es, k)
    ensures After(es, n).undo == Some(After(es, m).text)
    ensures After(es, n).text == After(es, m + 1).text
    decreases n
  {
    hide After, Mutates, Undone;
    StepEffect(es, n - 1);
    if n - 1 > m {
      UndoSlotContent(es, m, n - 1);
    }
  }

  /** An unlocked undo gives back, byte for byte, the text before the latest mutation; a
      second one right behind it changes nothing. */
  lemma {:induction false} UndoRestoresOnce(es: seq<Event>, m: nat, n: nat)
    requires m < n < |es| && Mutates(es, m)
    requires forall k :: m < k < n ==> !Mutates(es, k) && !Undone(es, k)
    requires es[n] == UndoEvent(false)
    ensures After(es, n + 1) == Doc(After(es, m).text, None)
    ensures n + 1 < |es| && es[n + 1].UndoEvent? ==>
              !Undone(es, n + 1) && After(es, n + 2) == After(es, n + 1)
  {
    UndoSlotContent(es, m, n);
    StepEffect(es, n);
    if n + 1 < |es| && es[n + 1].UndoEvent? {
      StepEffect(es, n + 1);
    }
  }
}
