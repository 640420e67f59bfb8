/** A write session on one sentence of one stored file: begin, word edits, commit. */
module WriteSessions {
  import opened Text
  import opened GrowArrays
  import opened TextOps
  import opened Merge
  import opened Wrappers
  import opened WordEdits

  /** A file as the storage server keeps it: the data file, the undo file, and the lock flag.
      `None` stands for a file that is not there. */
  class StoredFile {
    var data: Option<string>
    var undo: Option<string>
    var lockActive: bool

    ghost predicate Valid()
      reads this
    {
      (data.Some? ==> Terminated(data.value)) && (undo.Some? ==> Terminated(undo.value))
    }

    /** A missing data file reads as the empty text. */
    function Content(): string
      reads this
    {
      if data.Some? then data.value else ""
    }

    constructor ()
      ensures Valid() && data == Some("") && undo == None && !lockActive
    {
      data, undo, lockActive := Some(""), None, false;
    }
  }

  datatype CommitReply = Conflict | Stored(text: string, words: nat, chars: nat)

  method CountContextMatches(latest: Strings, original: Strings, candidate: int, target: int, direction: int) returns (matches: nat)
    requires latest.Valid() && original.Valid()
    ensures matches == MatchesFrom(latest.Items(), original.Items(), candidate, target, direction, 1)
  {
    matches := 0;
    var step := 1;
    while step <= ContextLimit
      invariant 1 <= step <= ContextLimit + 1
      invariant matches + MatchesFrom(latest.Items(), original.Items(), candidate, target, direction, step)
                == MatchesFrom(latest.Items(), original.Items(), candidate, target, direction, 1)
    {
      var o, l := target + direction * step, candidate + direction * step;
      if o < 0 || o >= original.len || l < 0 || l >= latest.len {
        break;
      }
      if original.data[o] != latest.data[l] {
        break;
      }
      matches := matches + 1;
      step := step + 1;
    }
  }

  method AppendSentenceList(dest: Strings, src: Strings)
    requires dest.Valid() && src.Valid()
    requires dest != src && dest.data != src.data
    modifies dest, dest.data
    ensures dest.Valid() && (dest.data == old(dest.data) || fresh(dest.data))
    ensures dest.Items() == old(dest.Items()) + src.Items()
  {
    ghost var before := dest.Items();
    var i := 0;
    while i < src.len
      invariant i <= src.len && dest.Valid()
      invariant dest.data == old(dest.data) || fresh(dest.data)
      invariant src.Items() == old(src.Items()) && src.data == old(src.data)
      invariant dest.Items() == before + src.Items()[..i]
    {
      dest.Push(src.data[i]);
      i := i + 1;
    }
  }

  /** What the splice loop has output when it reaches sentence `i`. */
  ghost function Spliced(kept: seq<string>, k: nat, skip: nat, added: seq<string>, i: nat): seq<string>
    requires k + skip <= |kept| && i <= |kept| && skip <= 1
  {
    if i <= k then kept[..i] else kept[..k] + added + kept[k + skip..i]
  }

  lemma {:induction false} SplicedStep(kept: seq<string>, k: nat, skip: nat, added: seq<string>, i: nat)
    requires k + skip <= |kept| && i < |kept| && skip <= 1
    ensures Spliced(kept, k, skip, added, i + 1)
            == Spliced(kept, k, skip, added, i) + (if i == k then added else []) + (if i == k && skip == 1 then [] else [kept[i]])
  {
    if i < k {
      assert kept[..i + 1] == kept[..i] + [kept[i]];
    } else if i > k {
      assert kept[k + skip..i + 1] == kept[k + skip..i] + [kept[i]];
    }
  }

  lemma {:induction false} SplicedEnds(kept: seq<string>, k: nat, skip: nat, added: seq<string>)
    requires k + skip <= |kept| && skip <= 1
    ensures Spliced(kept, k, skip, added, 0) == []
    ensures Splice(kept, k, skip, added) == Spliced(kept, k, skip, added, |kept|) + (if k == |kept| then added else [])
  {
  }

  /** The splice loop of a commit, with its two latches. */
  method MergeSentences(latest: Strings, parts: Strings, insertIndex: int, replacing: bool) returns (merged: Strings)
    requires latest.Valid() && parts.Valid()
    requires 0 <= insertIndex <= latest.len
    requires replacing ==> insertIndex < latest.len
    ensures fresh(merged) && fresh(merged.data) && merged.Valid()
    ensures merged.Items() == Splice(latest.Items(), insertIndex, if replacing then 1 else 0, parts.Items())
  {
    hide Spliced;
    merged := new GrowArray();
    ghost var kept, added := latest.Items(), parts.Items();
    ghost var skip := if replacing then 1 else 0;
    SplicedEnds(kept, insertIndex, skip, added);
    var inserted, removed := false, false;
    var i := 0;
    while i < latest.len
      invariant i <= latest.len
      invariant fresh(merged) && fresh(merged.data) && merged.Valid()
      invariant latest.Items() == kept && parts.Items() == added
      invariant inserted <==> i > insertIndex
      invariant removed <==> replacing && i > insertIndex
      invariant merged.Items() == Spliced(kept, insertIndex, skip, added, i)
    {
      SplicedStep(kept, insertIndex, skip, added, i);
      if !inserted && i == insertIndex {
        AppendSentenceList(merged, parts);
        inserted := true;
      }
      if replacing && !removed && i == insertIndex {
        removed := true;
      } else {
        merged.Push(latest.data[i]);
      }
      i := i + 1;
    }
    if !inserted {
      AppendSentenceList(merged, parts);
    }
  }

  class WriteSession {
    var active: bool
    var sentenceIndex: int
    var sentenceText: string
    var baseline: Option<string>
    var sentences: Strings

    ghost predicate Valid()
      reads this, sentences
    {
      && sentences.Valid()
      && (active ==> sentenceIndex >= 0)
      && Terminated(sentenceText)
    }

    /** The value the merge works with. */
    ghost function View(): Session
      requires Valid() && sentenceIndex >= 0
      reads this, sentences, sentences.data
    {
      Session(sentenceIndex, sentences.Items(), if baseline.Some? then baseline.value else "", sentenceText)
    }

    constructor ()
      ensures Valid() && !active && sentenceIndex == -1 && baseline == None && sentenceText == ""
      ensures fresh(sentences) && fresh(sentences.data)
    {
      active, sentenceIndex, sentenceText, baseline := false, -1, "", None;
      sentences := new GrowArray();
    }

    /** Opens the session, or fails on an index that is neither a sentence nor the end. */
    method Begin(file: StoredFile, index: int) returns (ok: bool)
      requires file.Valid()
      modifies this
      ensures ok <==> Merge.Begin(file.Content(), index).Some?
      ensures ok ==> Valid() && active && View() == Merge.Begin(file.Content(), index).value
      ensures fresh(sentences) && fresh(sentences.data)
    {
      active, sentenceIndex := true, index;
      baseline, sentenceText := None, "";
      var text := file.Content();
      sentences := SplitSentences(text);
      if index < 0 || index > sentences.len {
        return false;
      }
      if index < sentences.len {
        SplitFromTerminated("", text);
        var existing := sentences.data[index];
        assert existing == Split(text)[index];
        sentenceText := existing;
        baseline := Some(existing);
      }
      return true;
    }

    method ApplyInsert(index: int, content: string) returns (ok: bool)
      requires Valid()
      modifies this`sentenceText
      ensures Valid()
      ensures ok <==> active && InsertText(old(sentenceText), index, content).Some?
      ensures sentenceText == if ok then InsertText(old(sentenceText), index, content).value else old(sentenceText)
    {
      if !active {
        return false;
      }
      var words := SplitWords(sentenceText);
      if index < 0 || index > words.len {
        return false;
      }
      var added := SplitWords(content);
      EditWords(words, index, added);
      WordsShape(sentenceText);
      WordsShape(content);
      InsertTerminated(Words(sentenceText), index, Words(content));
      sentenceText := JoinStrings(' ', words);
      return true;
    }

    method ApplyReplace(index: int, content: string) returns (ok: bool)
      requires Valid()
      modifies this`sentenceText
      ensures Valid()
      ensures ok <==> active && ReplaceText(old(sentenceText), index, content).Some?
      ensures sentenceText == if ok then ReplaceText(old(sentenceText), index, content).value else old(sentenceText)
    {
      if !active {
        return false;
      }
      var words := SplitWords(sentenceText);
      if index < 0 || index >= words.len {
        return false;
      }
      var added := SplitWords(content);
      ReplaceWord(words, index, added);
      WordsShape(sentenceText);
      WordsShape(content);
      JoinTerminated(' ', words.Items());
      sentenceText := JoinStrings(' ', words);
      return true;
    }

    method ApplyDelete(index: int) returns (ok: bool)
      requires Valid()
      modifies this`sentenceText
      ensures Valid()
      ensures ok <==> active && DeleteText(old(sentenceText), index).Some?
      ensures sentenceText == if ok then DeleteText(old(sentenceText), index).value else old(sentenceText)
    {
      if !active {
        return false;
      }
      var words := SplitWords(sentenceText);
      if index < 0 || index >= words.len {
        return false;
      }
      words.Remove(index);
      WordsShape(sentenceText);
      JoinTerminated(' ', words.Items());
      sentenceText := JoinStrings(' ', words);
      return true;
    }

    /** The candidate loop of a commit. */
    method LocateBaseline(latest: Strings) returns (bestIndex: int)
      requires Valid() && sentenceIndex >= 0 && baseline.Some? && latest.Valid()
      ensures bestIndex == Locate(latest.Items(), View(), latest.len)
    {
      hide Locate;
      ghost var s, items := View(), latest.Items();
      assert items[..0] == [];
      bestIndex := -1;
      var bestScore := 0;
      var i := 0;
      while i < latest.len
        invariant 0 <= i <= latest.len
        invariant bestIndex == Locate(items, s, i)
        invariant bestIndex != -1 ==> bestScore == Score(items, s, bestIndex)
      {
        LocateStep(items, s, i);
        if latest.data[i] == baseline.value {
          var prefix := CountContextMatches(latest, sentences, i, sentenceIndex, -1);
          var suffix := CountContextMatches(latest, sentences, i, sentenceIndex, 1);
          var distance := if i < sentenceIndex then sentenceIndex - i else i - sentenceIndex;
          var score := prefix * 1000 + suffix * 500 - distance * 10;
          if i < sentenceIndex {
            score := score - 50;
          }
          assert score == Score(items, s, i);
          if bestIndex == -1 || score > bestScore {
            bestScore := score;
            bestIndex := i;
          }
        }
        i := i + 1;
      }
    }

    /** Where the new sentences go, and the spliced list. */
    method MergeLatest(latest: Strings, newParts: Strings) returns (found: bool, merged: Strings)
      requires Valid() && sentenceIndex >= 0 && latest.Valid() && newParts.Valid()
      requires newParts.Items() == Split(sentenceText)
      ensures merged.Valid()
      ensures MergeInto(latest.Items(), View()) == if found then Some(merged.Items()) else None
    {
      var insertIndex := sentenceIndex;
      if insertIndex > latest.len {
        insertIndex := latest.len;
      }
      var replacing := baseline.Some? && baseline.value != "";
      if replacing {
        var best := LocateBaseline(latest);
        if best < 0 {
          return false, latest;
        }
        insertIndex := best;
      }
      merged := MergeSentences(latest, newParts, insertIndex, replacing);
      found := true;
    }

    /** Merges into the file as it is now. A conflict stores nothing; otherwise the text that
        was there goes to the undo file and the session ends. */
    method Commit(file: StoredFile) returns (reply: CommitReply)
      requires Valid() && active && file.Valid()
      modifies this`active, file`data, file`undo
      ensures file.Valid() && Valid()
      ensures reply.Conflict? <==> Merge.Commit(old(file.Content()), old(View())) == None
      ensures reply.Conflict? ==> file.data == old(file.data) && file.undo == old(file.undo) && active
      ensures reply.Stored? ==>
                && Merge.Commit(old(file.Content()), old(View())) == Some(reply.text)
                && file.data == Some(reply.text) && file.undo == Some(old(file.Content()))
                && reply.words == |Words(reply.text)| && reply.chars == |reply.text|
                && !active
    {
      hide MergeInto, Split, Words, Join;
      ghost var s := View();
      var currentText := file.Content();
      var latest := SplitSentences(currentText);
      var newParts := SplitSentences(sentenceText);
      var found, merged := MergeLatest(latest, newParts);
      if !found {
        return Conflict;
      }
      MergedTerminated(currentText, s);
      var text := JoinSentences(merged);
      file.undo := Some(currentText);
      file.data := Some(text);
      var words := CountWords(text);
      active := false;
      return Stored(text, words, |text|);
    }
  }

  /** Takes a closing delimiter off the last word when the insertion goes behind that word. */
  method DetachTerminator(words: Strings, index: nat) returns (relocate: bool, delim: char)
    requires words.Valid() && index <= words.len
    modifies words.data
    ensures relocate <==> Relocates(old(words.Items()), index)
    ensures relocate <==>
              && index == words.len && index > 0 && old(words.Items())[index - 1] != ""
              && delim == old(words.Items())[index - 1][|old(words.Items())[index - 1]| - 1]
              && (delim == '.' || delim == '!' || delim == '?')
    ensures relocate ==> delim == Terminator(old(words.Items()))
    ensures words.Items() == if relocate then old(words.Items())[..index - 1] + [Body(old(words.Items()))]
                             else old(words.Items())
  {
    relocate, delim := false, '.';
    if index == words.len && words.len > 0 {
      var last := words.data[words.len - 1];
      if |last| > 0 && IsDelim(last[|last| - 1]) {
        delim := last[|last| - 1];
        words.data[words.len - 1] := last[..|last| - 1];
        relocate := true;
      }
    }
  }

  method AttachTerminator(words: Strings, target: nat, delim: char)
    requires words.Valid() && words.len > 0 && target == words.len - 1
    modifies words.data
    ensures words.Items() == WithTerminator(old(words.Items()), delim)
  {
    words.data[target] := words.data[target] + [delim];
  }

  lemma {:induction false} InsertOne(before: seq<string>, index: nat, extra: seq<string>, i: nat)
    requires index <= |before| && i < |extra|
    ensures var now := before[..index] + extra[..i] + before[index..];
            now[..index + i] + [extra[i]] + now[index + i..] == before[..index] + extra[..i + 1] + before[index..]
  {
    assert extra[..i + 1] == extra[..i] + [extra[i]];
  }

  /** Inserts the added words one by one, each behind the one before it. */
  method InsertAll(words: Strings, index: nat, added: Strings)
    requires words.Valid() && added.Valid() && index <= words.len
    requires words != added && words.data != added.data
    modifies words, words.data
    ensures words.Valid() && (words.data == old(words.data) || fresh(words.data))
    ensures words.Items() == old(words.Items())[..index] + added.Items() + old(words.Items())[index..]
    ensures added.data == old(added.data) && added.Items() == old(added.Items())
  {
    ghost var before := words.Items();
    var i := 0;
    while i < added.len
      invariant i <= added.len && words.Valid()
      invariant words.data == old(words.data) || fresh(words.data)
      invariant added.data == old(added.data) && added.Items() == old(added.Items())
      invariant words.Items() == before[..index] + added.Items()[..i] + before[index..]
    {
      ghost var extra := added.Items();
      InsertOne(before, index, extra, i);
      var ok := words.Insert(index + i, added.data[i]);
      i := i + 1;
    }
  }

  method ReplaceWord(words: Strings, index: nat, added: Strings)
    requires words.Valid() && added.Valid() && index < words.len
    requires words != added && words.data != added.data
    modifies words, words.data
    ensures words.Valid() && (words.data == old(words.data) || fresh(words.data))
    ensures words.Items() == old(words.Items())[..index] + old(added.Items()) + old(words.Items())[index + 1..]
  {
    ghost var before, extra := words.Items(), added.Items();
    words.Remove(index);
    ghost var less := words.Items();
    assert less[..index] == before[..index] && less[index..] == before[index + 1..];
    InsertAll(words, index, added);
  }

  /** Inserts the words in place; a closing delimiter behind which they go is moved to the end. */
  method EditWords(words: Strings, index: nat, added: Strings)
    requires words.Valid() && added.Valid() && index <= words.len
    requires words != added && words.data != added.data
    modifies words, words.data
    ensures words.Valid() && (words.data == old(words.data) || fresh(words.data))
    ensures words.Items() == InsertWords(old(words.Items()), index, old(added.Items()))
  {
    ghost var before, extra := words.Items(), added.Items();
    var relocate, delim := DetachTerminator(words, index);
    InsertAll(words, index, added);
    if relocate {
      assert words.Items() == before[..index - 1] + [Body(before)] + extra;
      var target := if added.len > 0 then index + added.len - 1 else words.len - 1;
      AttachTerminator(words, target, delim);
    }
  }

  lemma {:induction false} InsertTerminated(words: seq<string>, i: nat, added: seq<string>)
    requires WordList(words) && WordList(added) && i <= |words|
    ensures Terminated(JoinWith(' ', InsertWords(words, i, added)))
  {
    JoinTerminated(' ', InsertWords(words, i, added));
  }

  lemma {:induction false} MergedTerminated(text: string, s: Session)
    requires Terminated(text) && Terminated(s.text)
    ensures Merge.Commit(text, s).Some? ==> Terminated(Merge.Commit(text, s).value)
  {
    SplitFromTerminated("", text);
    SplitFromTerminated("", s.text);
    if Merge.Commit(text, s).Some? {
      JoinTerminated('\n', MergeInto(Split(text), s).value);
    }
  }
}
