/** The text helpers in the form the storage server runs them: character buffers with a
    terminator, positions that advance, lists that grow. Each is proved against `Text`. */
module TextOps {
  import opened Text
  import opened GrowArrays

  type Strings = GrowArray<string>

  predicate Terminated(s: string) {
    '\0' !in s
  }

  /** Buffer `buf` holds the C string whose content is `s`. */
  ghost predicate Holds(buf: array<char>, s: string)
    reads buf
  {
    |s| < buf.Length && buf[..|s|] == s && buf[|s|] == '\0' && Terminated(s)
  }

  method StrLen(buf: array<char>, ghost s: string) returns (n: nat)
    requires Holds(buf, s)
    ensures n == |s|
  {
    assert forall k :: 0 <= k < |s| ==> buf[k] == s[k] && s[k] != '\0' by {
      assert forall k :: 0 <= k < |s| ==> buf[..|s|][k] == s[k] && s[k] in s;
    }
    n := 0;
    while buf[n] != '\0'
      invariant n <= |s|
      decreases |s| - n
    {
      n := n + 1;
    }
  }

  method StrDup(buf: array<char>, ghost s: string) returns (copy: string)
    requires Holds(buf, s)
    ensures copy == s
  {
    var n := StrLen(buf, s);
    copy := buf[..n];
  }

  method TrimSpaces(buf: array<char>, ghost s: string)
    requires Holds(buf, s)
    modifies buf
    ensures Holds(buf, Trim(s))
  {
    var len: nat := StrLen(buf, s);
    while len > 0 && IsBlank(buf[len - 1])
      invariant len <= |s| && Holds(buf, s[..len])
      invariant TrimRight(s[..len]) == TrimRight(s)
    {
      assert s[..len][..len - 1] == s[..len - 1];
      assert buf[len - 1] == s[..len][len - 1];
      buf[len - 1] := '\0';
      len := len - 1;
    }
    ghost var t := s[..len];
    assert t == TrimRight(s) by {
      assert t != "" ==> t[len - 1] == buf[len - 1];
    }
    var start := 0;
    while buf[start] != '\0' && IsBlank(buf[start])
      invariant start <= len
      invariant TrimLeft(t[start..]) == TrimLeft(t)
      decreases len - start
    {
      assert t[start..][1..] == t[start + 1..];
      assert start < len && t[start] == buf[start];
      start := start + 1;
    }
    assert t[start..] == Trim(s) by {
      assert start < len ==> t[start..][0] == buf[start];
    }
    if start > 0 {
      forall i | 0 <= i <= len - start {
        buf[i] := buf[i + start];
      }
    }
    assert buf[..len - start] == t[start..];
  }

  method SplitSentences(text: string) returns (out: Strings)
    requires Terminated(text)
    ensures fresh(out) && fresh(out.data) && out.Valid()
    ensures out.Items() == Split(text)
  {
    out := new GrowArray();
    var buffer := new char[|text| + 1];
    var pos, p := 0, 0;
    while p < |text|
      invariant pos <= p <= |text|
      invariant fresh(out) && fresh(out.data) && out.Valid()
      invariant Terminated(buffer[..pos])
      invariant out.Items() + SplitFrom(buffer[..pos], text[p..]) == Split(text)
    {
      ghost var seen, done := buffer[..pos], out.Items();
      var c := text[p];
      if c == '\n' || c == '\r' {
        c := ' ';
      }
      assert c == Spaced(text[p..][0]) && text[p..][1..] == text[p + 1..];
      buffer[pos] := c;
      pos := pos + 1;
      assert buffer[..pos] == seen + [c];
      if IsDelim(c) {
        FlushSentence(buffer, pos, out);
        pos := 0;
        assert done + (Emit(seen + [c]) + SplitFrom("", text[p + 1..])) == Split(text);
      }
      p := p + 1;
    }
    assert text[p..] == "";
    if pos > 0 {
      FlushSentence(buffer, pos, out);
    }
  }

  /** The step both ends of the splitter share: terminate, trim, and push unless empty. */
  method FlushSentence(buffer: array<char>, pos: nat, out: Strings)
    requires pos < buffer.Length && Terminated(buffer[..pos])
    requires out.Valid()
    modifies buffer, out, out.data
    ensures out.Valid() && (out.data == old(out.data) || fresh(out.data))
    ensures out.Items() == old(out.Items()) + Emit(old(buffer[..pos]))
  {
    ghost var s := buffer[..pos];
    buffer[pos] := '\0';
    assert buffer[..pos] == s;
    TrimSpaces(buffer, s);
    assert Trim(s) != "" ==> buffer[0] == Trim(s)[0] && Trim(s)[0] in Trim(s);
    if buffer[0] != '\0' {
      var copy := StrDup(buffer, Trim(s));
      out.Push(copy);
    }
  }

  lemma {:induction false} WordsSkipBlank(text: string)
    requires text != "" && IsBlank(text[0])
    ensures Words(text) == Words(text[1..])
  {
  }

  lemma {:induction false} WordsTakeWord(w: string, rest: string)
    requires Word(w) && (rest == "" || IsBlank(rest[0]))
    ensures Words(w + rest) == [w] + Words(rest)
  {
    WordsFromPlain("", w, rest);
    assert "" + w == w;
    if rest != "" {
      WordsSkipBlank(rest);
    }
  }

  method SkipBlanks(sentence: string, start: nat) returns (p: nat)
    requires start <= |sentence|
    ensures start <= p <= |sentence| && (p < |sentence| ==> !IsBlank(sentence[p]))
    ensures Words(sentence[p..]) == Words(sentence[start..])
  {
    p := start;
    while p < |sentence| && IsBlank(sentence[p])
      invariant start <= p <= |sentence|
      invariant Words(sentence[p..]) == Words(sentence[start..])
    {
      WordsSkipBlank(sentence[p..]);
      assert sentence[p..][1..] == sentence[p + 1..];
      p := p + 1;
    }
  }

  method SkipWord(sentence: string, start: nat) returns (p: nat)
    requires start < |sentence| && !IsBlank(sentence[start])
    ensures start < p <= |sentence|
    ensures Words(sentence[start..]) == [sentence[start..p]] + Words(sentence[p..])
  {
    p := start;
    while p < |sentence| && !IsBlank(sentence[p])
      invariant start <= p <= |sentence|
      invariant NoBlank(sentence[start..p])
    {
      assert sentence[start..p + 1] == sentence[start..p] + [sentence[p]];
      p := p + 1;
    }
    assert sentence[start..] == sentence[start..p] + sentence[p..];
    WordsTakeWord(sentence[start..p], sentence[p..]);
  }

  method SplitWords(sentence: string) returns (out: Strings)
    ensures fresh(out) && fresh(out.data) && out.Valid()
    ensures out.Items() == Words(sentence)
  {
    hide Words;
    out := new GrowArray();
    var p := 0;
    assert sentence[0..] == sentence;
    while p < |sentence|
      invariant p <= |sentence|
      invariant fresh(out) && fresh(out.data) && out.Valid()
      invariant out.Items() + Words(sentence[p..]) == Words(sentence)
    {
      ghost var done := out.Items();
      var start := SkipBlanks(sentence, p);
      if start == |sentence| {
        p := start;
        break;
      }
      p := SkipWord(sentence, start);
      out.Push(sentence[start..p]);
      assert done + [sentence[start..p]] + Words(sentence[p..]) == done + ([sentence[start..p]] + Words(sentence[p..]));
    }
    NoWords(sentence[p..]);
  }

  lemma {:induction false} NoWords(text: string)
    requires text == ""
    ensures Words(text) == []
  {
  }

  lemma {:induction false} JoinTail(sep: char, items: seq<string>, i: nat)
    requires i < |items|
    ensures JoinWith(sep, items[i..])
            == if i + 1 < |items| then items[i] + [sep] + JoinWith(sep, items[i + 1..]) else items[i]
    ensures i + 1 == |items| ==> JoinWith(sep, items[i + 1..]) == ""
  {
    assert items[i..][1..] == items[i + 1..];
  }

  method JoinedLength(sep: char, parts: Strings) returns (total: nat)
    requires parts.Valid()
    ensures total == |JoinWith(sep, parts.Items())|
  {
    ghost var items := parts.Items();
    total := 0;
    var i := 0;
    assert items[0..] == items;
    while i < parts.len
      invariant i <= |items|
      invariant total + |JoinWith(sep, items[i..])| == |JoinWith(sep, items)|
    {
      JoinTail(sep, items, i);
      total := total + |parts.data[i]|;
      if i + 1 < parts.len {
        total := total + 1;
      }
      i := i + 1;
    }
    assert items[i..] == [];
  }

  lemma {:induction false} Reassociate(before: string, w: string, sep: char, rest: string)
    ensures before + (w + [sep] + rest) == before + w + [sep] + rest
    ensures before + w + "" == before + w
  {
  }

  method CopyAt(result: array<char>, offset: nat, w: string)
    requires offset + |w| <= result.Length
    modifies result
    ensures result[..offset + |w|] == old(result[..offset]) + w
  {
    forall k | 0 <= k < |w| {
      result[offset + k] := w[k];
    }
  }

  /** The two joiners: one pass measures, a second one copies into a buffer of that size. */
  method JoinStrings(sep: char, parts: Strings) returns (joined: string)
    requires parts.Valid()
    ensures joined == JoinWith(sep, parts.Items())
  {
    ghost var items := parts.Items();
    var total := JoinedLength(sep, parts);
    var result := new char[total + 1];
    var offset, i := 0, 0;
    assert items[0..] == items && result[..0] + JoinWith(sep, items) == JoinWith(sep, items);
    while i < parts.len
      invariant i <= |items| && 0 <= offset <= total
      invariant parts.Items() == items && parts.Valid()
      invariant result[..offset] + JoinWith(sep, items[i..]) == JoinWith(sep, items)
    {
      ghost var before, rest := result[..offset], JoinWith(sep, items[i + 1..]);
      JoinTail(sep, items, i);
      hide JoinWith;
      var w := parts.data[i];
      assert w == items[i] && |before| + |JoinWith(sep, items[i..])| == total;
      CopyAt(result, offset, w);
      offset := offset + |w|;
      if i + 1 < parts.len {
        CopyAt(result, offset, [sep]);
        offset := offset + 1;
      }
      Reassociate(before, w, sep, rest);
      i := i + 1;
    }
    result[offset] := '\0';
    joined := result[..offset];
    assert items[i..] == [] && joined + "" == joined;
  }

  method JoinSentences(parts: Strings) returns (joined: string)
    requires parts.Valid()
    ensures joined == Join(parts.Items())
  {
    joined := JoinStrings('\n', parts);
  }

  function CountFrom(inWord: bool, text: string): nat
    decreases |text|
  {
    if text == "" then 0
    else if IsBlank(text[0]) then CountFrom(false, text[1..])
    else (if inWord then 0 else 1) + CountFrom(true, text[1..])
  }

  lemma {:induction false} CountIsWordCount(cur: string, text: string)
    ensures |WordsFrom(cur, text)| == CountFrom(cur != "", text) + |EmitWord(cur)|
    decreases |text|
  {
    if text != "" {
      if IsBlank(text[0]) {
        CountIsWordCount("", text[1..]);
      } else {
        CountIsWordCount(cur + [text[0]], text[1..]);
      }
    }
  }

  method CountWords(text: string) returns (count: nat)
    ensures count == |Words(text)|
  {
    count := 0;
    var inWord, p := false, 0;
    while p < |text|
      invariant p <= |text|
      invariant count + CountFrom(inWord, text[p..]) == CountFrom(false, text)
    {
      assert text[p..][1..] == text[p + 1..];
      if IsBlank(text[p]) {
        inWord := false;
      } else if !inWord {
        inWord := true;
        count := count + 1;
      }
      p := p + 1;
    }
    CountIsWordCount("", text);
  }
}
