/** Word-level edits of the sentence under edit, as functions on word lists, and the laws
    that tie the text they leave behind to plain list insertion, deletion and replacement. */
module WordEdits {
  import opened Text
  import opened Merge
  import opened Wrappers

  /** An insertion behind a last word that ends in a delimiter moves the delimiter to the end. */
  predicate Relocates(words: seq<string>, i: nat) {
    i == |words| && words != [] && EndsDelim(words[|words| - 1])
  }

  function Body(words: seq<string>): string
    requires words != [] && words[|words| - 1] != ""
  {
    var w := words[|words| - 1];
    w[..|w| - 1]
  }

  function Terminator(words: seq<string>): char
    requires words != [] && words[|words| - 1] != ""
  {
    var w := words[|words| - 1];
    w[|w| - 1]
  }

  function WithTerminator(words: seq<string>, c: char): seq<string>
    requires words != []
  {
    words[|words| - 1 := words[|words| - 1] + [c]]
  }

  function InsertWords(words: seq<string>, i: nat, added: seq<string>): seq<string>
    requires i <= |words|
  {
    if Relocates(words, i)
    then WithTerminator(words[..i - 1] + [Body(words)] + added, Terminator(words))
    else words[..i] + added + words[i..]
  }

  function InsertText(text: string, i: int, content: string): Option<string> {
    var words := Words(text);
    if 0 <= i <= |words| then Some(JoinWith(' ', InsertWords(words, i, Words(content)))) else None
  }

  function ReplaceText(text: string, i: int, content: string): Option<string> {
    var words := Words(text);
    if 0 <= i < |words| then Some(JoinWith(' ', words[..i] + Words(content) + words[i + 1..])) else None
  }

  function DeleteText(text: string, i: int): Option<string> {
    var words := Words(text);
    if 0 <= i < |words| then Some(JoinWith(' ', words[..i] + words[i + 1..])) else None
  }

  /** Insertion succeeds for every index up to the end and is list insertion of the content's
      words, except that one of the three delimiters that closes the last word stays at the very
      end of the sentence. */
  lemma {:induction false} InsertRefinesList(text: string, i: int, content: string)
    ensures InsertText(text, i, content).Some? <==> 0 <= i <= |Words(text)|
    ensures 0 <= i <= |Words(text)| ==>
              var words, added := Words(text), Words(content);
              var result := Words(InsertText(text, i, content).value);
              if i < |words| || i == 0 then result == words[..i] + added + words[i..]
              else
                words[i - 1] != ""
                && var w := words[i - 1];
                   var body, last := w[..|w| - 1], w[|w| - 1];
                   if last != '.' && last != '!' && last != '?' then result == words + added
                   else if added == [] then result == words
                   else result == words[..i - 1] + (if body == "" then [] else [body])
                                  + (added[..|added| - 1] + [added[|added| - 1] + [last]])
  {
    var words, added := Words(text), Words(content);
    WordsShape(text);
    WordsShape(content);
    if 0 <= i <= |words| {
      if Relocates(words, i) {
        RelocatedWords(words, added);
      } else {
        WordsRoundTrip(words[..i] + added + words[i..]);
        assert i == |words| ==> words[..i] + added + words[i..] == words + added;
      }
    }
  }

  lemma {:induction false} EmptyInsertKeeps(words: seq<string>)
    requires Relocates(words, |words|)
    ensures InsertWords(words, |words|, []) == words
  {
    var n := |words| - 1;
    assert words[n] == Body(words) + [Terminator(words)];
    var stripped := words[..n] + [Body(words)] + [];
    assert |stripped| == |words| && stripped[n] == Body(words);
    assert WithTerminator(stripped, Terminator(words)) == words;
  }

  /** The list an append leaves behind: front, stripped word, content, closed last word. */
  lemma {:induction false} RelocatedList(words: seq<string>, added: seq<string>)
    requires words != [] && Relocates(words, |words|) && added != []
    ensures InsertWords(words, |words|, added)
            == words[..|words| - 1] + [Body(words)] + (added[..|added| - 1] + [added[|added| - 1] + [Terminator(words)]])
  {
  }

  lemma {:induction false} WordsOfThree(front: seq<string>, body: string, back: seq<string>)
    requires WordList(front) && NoBlank(body) && WordList(back)
    ensures WordsAll(front + [body] + back) == front + EmitWord(body) + back
  {
    hide WordList, NoBlank, WordsAll;
    WordsAllConcat(front + [body], back);
    WordsAllConcat(front, [body]);
    WordsAllOfWords(front);
    WordsAllOfWords(back);
    WordsAllOne(body);
  }

  lemma {:induction false} PartsAreWords(words: seq<string>, added: seq<string>)
    requires WordList(words) && WordList(added) && Relocates(words, |words|) && added != []
    ensures WordList(words[..|words| - 1]) && NoBlank(Body(words))
    ensures WordList(added[..|added| - 1] + [added[|added| - 1] + [Terminator(words)]])
  {
  }

  lemma {:induction false} RelocatedWords(words: seq<string>, added: seq<string>)
    requires WordList(words) && WordList(added) && Relocates(words, |words|)
    ensures Words(JoinWith(' ', InsertWords(words, |words|, added)))
            == if added == [] then words
               else words[..|words| - 1] + EmitWord(Body(words))
                    + (added[..|added| - 1] + [added[|added| - 1] + [Terminator(words)]])
  {
    WordsJoin(' ', InsertWords(words, |words|, added));
    if added == [] {
      EmptyInsertKeeps(words);
      WordsAllOfWords(words);
    } else {
      RelocatedList(words, added);
      PartsAreWords(words, added);
      assert words != [] && words[|words| - 1] != "";
      hide InsertWords, Relocates, Words, WordList, NoBlank, WordsAll, JoinWith, Body, Terminator, EmitWord;
      WordsOfThree(words[..|words| - 1], Body(words), added[..|added| - 1] + [added[|added| - 1] + [Terminator(words)]]);
    }
  }

  lemma {:induction false} WordsAllOne(w: string)
    requires NoBlank(w)
    ensures WordsAll([w]) == EmitWord(w)
  {
    WordsOfWord(w);
    assert WordsAll([w]) == Words(w) + WordsAll([]);
  }

  lemma {:induction false} NonBlankAllOfWords(words: seq<string>, w: string)
    requires NoBlank(w)
    ensures NonBlankAll(words + [w]) == NonBlankAll(words) + w
  {
    NonBlankAllConcat(words, [w]);
    assert [w][1..] == [];
    NonBlankOfNoBlank(w);
  }

  lemma {:induction false} TextOfList(front: seq<string>, body: string, back: seq<string>, last: string)
    requires NoBlank(body) && NoBlank(last)
    ensures NonBlankAll(front + [body] + back + [last]) == NonBlankAll(front) + body + (NonBlankAll(back) + last)
  {
    hide NoBlank, NonBlankAll;
    NonBlankAllOfWords(front + [body] + back, last);
    NonBlankAllConcat(front + [body], back);
    NonBlankAllOfWords(front, body);
  }

  lemma {:induction false} TextOfAdded(added: seq<string>)
    requires WordList(added) && added != []
    ensures NonBlankAll(added) == NonBlankAll(added[..|added| - 1]) + added[|added| - 1]
  {
    var m := |added| - 1;
    assert added == added[..m] + [added[m]];
    NonBlankAllOfWords(added[..m], added[m]);
  }

  lemma {:induction false} MoveEnd(x: string, y: string, d: char)
    ensures x + (y + [d]) == x + y + [d]
  {
  }

  lemma {:induction false} AppendedText(words: seq<string>, added: seq<string>)
    requires WordList(words) && WordList(added) && Relocates(words, |words|)
    ensures NonBlankAll(words) == NonBlankAll(words[..|words| - 1]) + Body(words) + [Terminator(words)]
    ensures NonBlankAll(InsertWords(words, |words|, added))
            == NonBlankAll(words[..|words| - 1]) + Body(words) + NonBlankAll(added) + [Terminator(words)]
  {
    var n, d, body := |words| - 1, Terminator(words), Body(words);
    var front := NonBlankAll(words[..n]);
    TextOfAdded(words);
    assert words[n] == body + [d];
    MoveEnd(front, body, d);
    if added == [] {
      EmptyInsertKeeps(words);
      assert NonBlankAll(added) == "" && front + body + "" == front + body;
    } else {
      var m := |added| - 1;
      assert InsertWords(words, |words|, added) == words[..n] + [body] + added[..m] + [added[m] + [d]];
      assert NoBlank(body) && NoBlank(added[m] + [d]);
      hide InsertWords, Relocates, WordList, NoBlank, NonBlankAll, Body, Terminator;
      TextOfList(words[..n], body, added[..m], added[m] + [d]);
      AddedEnd(front + body, NonBlankAll(added[..m]), added[m], d);
      TextOfAdded(added);
    }
  }

  lemma {:induction false} AddedEnd(x: string, y: string, w: string, d: char)
    ensures x + (y + (w + [d])) == x + (y + w) + [d]
  {
  }

  /** The last visible character of a text is the last one of its last word. */
  lemma {:induction false} LastVisible(text: string)
    ensures NonBlank(text) == "" <==> Words(text) == []
    ensures Words(text) != [] ==>
              var w := Words(text)[|Words(text)| - 1];
              w != "" && NonBlank(text)[|NonBlank(text)| - 1] == w[|w| - 1]
  {
    var words := Words(text);
    WordsShape(text);
    WordsConserveText(text);
    if words != [] {
      TextOfAdded(words);
    }
  }

  /** Appending to a sentence that is closed by one of the three delimiters keeps the visible
      text: what was there, the content, the delimiter. */
  lemma {:induction false} AppendKeepsTerminator(text: string, content: string)
    requires NonBlank(text) != ""
    requires NonBlank(text)[|NonBlank(text)| - 1] == '.' || NonBlank(text)[|NonBlank(text)| - 1] == '!'
             || NonBlank(text)[|NonBlank(text)| - 1] == '?'
    ensures InsertText(text, |Words(text)|, content).Some?
    ensures var seen := NonBlank(text);
            NonBlank(InsertText(text, |Words(text)|, content).value)
            == seen[..|seen| - 1] + NonBlank(content) + [seen[|seen| - 1]]
  {
    var words, added := Words(text), Words(content);
    LastVisible(text);
    assert Relocates(words, |words|);
    WordsShape(text);
    WordsShape(content);
    WordsConserveText(text);
    WordsConserveText(content);
    AppendedText(words, added);
    NonBlankJoin(' ', InsertWords(words, |words|, added));
  }

  /** Appending to any other text just puts the content behind it. */
  lemma {:induction false} AppendBehindOpenText(text: string, content: string)
    requires NonBlank(text) != "" ==>
               var last := NonBlank(text)[|NonBlank(text)| - 1];
               last != '.' && last != '!' && last != '?'
    ensures InsertText(text, |Words(text)|, content).Some?
    ensures Words(InsertText(text, |Words(text)|, content).value) == Words(text) + Words(content)
    ensures NonBlank(InsertText(text, |Words(text)|, content).value) == NonBlank(text) + NonBlank(content)
  {
    var result := InsertText(text, |Words(text)|, content).value;
    LastVisible(text);
    InsertRefinesList(text, |Words(text)|, content);
    assert Words(text) == [] ==> Words(text)[..0] + Words(content) + Words(text)[0..] == Words(text) + Words(content);
    WordsConserveText(result);
    WordsConserveText(text);
    WordsConserveText(content);
    NonBlankAllConcat(Words(text), Words(content));
  }

  lemma {:induction false} ReplaceRefinesList(text: string, i: int, content: string)
    ensures ReplaceText(text, i, content).Some? <==> 0 <= i < |Words(text)|
    ensures 0 <= i < |Words(text)| ==>
              Words(ReplaceText(text, i, content).value) == Words(text)[..i] + Words(content) + Words(text)[i + 1..]
  {
    WordsShape(text);
    WordsShape(content);
    if 0 <= i < |Words(text)| {
      WordsRoundTrip(Words(text)[..i] + Words(content) + Words(text)[i + 1..]);
    }
  }

  lemma {:induction false} DeleteRefinesList(text: string, i: int)
    ensures DeleteText(text, i).Some? <==> 0 <= i < |Words(text)|
    ensures 0 <= i < |Words(text)| ==> Words(DeleteText(text, i).value) == Words(text)[..i] + Words(text)[i + 1..]
  {
    WordsShape(text);
    if 0 <= i < |Words(text)| {
      WordsRoundTrip(Words(text)[..i] + Words(text)[i + 1..]);
    }
  }

  function DeleteTimes(text: string, i: nat, times: nat): Option<string>
    decreases times
  {
    if times == 0 then Some(text)
    else
      var next := DeleteText(text, i);
      if next.None? then None else DeleteTimes(next.value, i, times - 1)
  }

  lemma {:induction false} DeleteTimesRemoves(text: string, i: nat, times: nat)
    requires i + times <= |Words(text)|
    ensures DeleteTimes(text, i, times).Some?
    ensures Words(DeleteTimes(text, i, times).value) == Words(text)[..i] + Words(text)[i + times..]
    decreases times
  {
    if times == 0 {
      assert Words(text) == Words(text)[..i] + Words(text)[i..];
    } else {
      DeleteRefinesList(text, i);
      var next := DeleteText(text, i).value;
      DeleteTimesRemoves(next, i, times - 1);
      assert Words(next)[..i] == Words(text)[..i];
      assert Words(next)[i + (times - 1)..] == Words(text)[i + times..];
    }
  }

  /** Inserting before the end and deleting as many words at the same index undoes itself. */
  lemma {:induction false} InsertThenDeleteRestores(text: string, i: nat, content: string)
    requires i < |Words(text)|
    ensures var inserted := InsertText(text, i, content).value;
            var restored := DeleteTimes(inserted, i, |Words(content)|);
            restored.Some? && Words(restored.value) == Words(text)
  {
    InsertRefinesList(text, i, content);
    var inserted := InsertText(text, i, content).value;
    DeleteTimesRemoves(inserted, i, |Words(content)|);
    assert Words(inserted)[..i] == Words(text)[..i];
    assert Words(inserted)[i + |Words(content)|..] == Words(text)[i..];
    assert Words(text)[..i] + Words(text)[i..] == Words(text);
  }

  // --------------------------------------------------------- no stray terminators

  lemma {:induction false} JoinTerminated(sep: char, parts: seq<string>)
    requires sep != '\0' && forall k :: 0 <= k < |parts| ==> '\0' !in parts[k]
    ensures '\0' !in JoinWith(sep, parts)
    decreases |parts|
  {
    if |parts| > 1 {
      JoinTerminated(sep, parts[1..]);
    }
  }

  lemma {:induction false} SplitFromTerminated(buf: string, text: string)
    requires '\0' !in buf && '\0' !in text
    ensures forall k :: 0 <= k < |SplitFrom(buf, text)| ==> '\0' !in SplitFrom(buf, text)[k]
    decreases |text|
  {
    if text == "" {
      var a, b := TrimSplits(buf);
    } else {
      var c := Spaced(text[0]);
      assert text[0] in text;
      assert '\0' !in text[1..];
      if IsDelim(c) {
        var a, b := TrimSplits(buf + [c]);
        assert '\0' !in a + Trim(buf + [c]) + b;
        SplitFromTerminated("", text[1..]);
      } else {
        SplitFromTerminated(buf + [c], text[1..]);
      }
    }
  }

  // ------------------------------------------------------------------ normal form

  /** Words with single spaces between them and nothing else. */
  lemma {:induction false} SpacesBetween(words: seq<string>, k: nat)
    requires k < |JoinWith(' ', words)| && JoinWith(' ', words)[k] <= ' '
    requires forall i, j :: 0 <= i < |words| && 0 <= j < |words[i]| ==> words[i][j] > ' '
    ensures JoinWith(' ', words)[k] == ' '
  {
    if |words| > 1 && k > |words[0]| {
      SpacesBetween(words[1..], k - |words[0]| - 1);
    }
  }

  /** An edited sentence is written with single spaces: the words of the replaced or shortened
      list, joined. */
  lemma {:induction false} EditsAreNormal(text: string, i: nat, content: string)
    requires i < |Words(text)|
    ensures var replaced, deleted := ReplaceText(text, i, content).value, DeleteText(text, i).value;
            && replaced == JoinWith(' ', Words(replaced)) && deleted == JoinWith(' ', Words(deleted))
            && (forall k :: 0 <= k < |replaced| && replaced[k] <= ' ' ==> replaced[k] == ' ')
            && (forall k :: 0 <= k < |deleted| && deleted[k] <= ' ' ==> deleted[k] == ' ')
  {
    var replaced, deleted := ReplaceText(text, i, content).value, DeleteText(text, i).value;
    ReplaceRefinesList(text, i, content);
    DeleteRefinesList(text, i);
    WordsShape(replaced);
    WordsShape(deleted);
    forall k | 0 <= k < |replaced| && replaced[k] <= ' ' ensures replaced[k] == ' ' {
      SpacesBetween(Words(replaced), k);
    }
    forall k | 0 <= k < |deleted| && deleted[k] <= ' ' ensures deleted[k] == ' ' {
      SpacesBetween(Words(deleted), k);
    }
  }

  lemma {:induction false} InsertIsNormal(text: string, i: nat, content: string)
    requires i < |Words(text)|
    ensures var inserted := InsertText(text, i, content).value;
            && inserted == JoinWith(' ', Words(inserted))
            && (forall k :: 0 <= k < |inserted| && inserted[k] <= ' ' ==> inserted[k] == ' ')
  {
    var inserted := InsertText(text, i, content).value;
    InsertRefinesList(text, i, content);
    WordsShape(inserted);
    forall k | 0 <= k < |inserted| && inserted[k] <= ' ' ensures inserted[k] == ' ' {
      SpacesBetween(Words(inserted), k);
    }
  }
}
