/** EXEC runs a stored document as a script. The storage server keeps one sentence per line;
    the name manager flattens the lines again. This is when the script comes back unchanged. */
module ExecText {
  import opened Text

  /** `last` is the last character copied that is not a line break. */
  function FlattenFrom(last: char, script: string): string
    decreases |script|
  {
    if script == "" then ""
    else
      var c := script[0];
      if c == '\r' then FlattenFrom(last, script[1..])
      else if c == '\n' then
        if last != '\0' && IsDelim(last) then FlattenFrom(last, script[1..]) else ['\n'] + FlattenFrom(last, script[1..])
      else [c] + FlattenFrom(c, script[1..])
  }

  /** One character: dropped, or copied and perhaps remembered. */
  lemma {:induction false} FlattenStep(last: char, script: string)
    requires script != ""
    ensures var c, rest := script[0], script[1..];
            FlattenFrom(last, script)
            == if c != '\r' && (c != '\n' || last == '\0' || !IsDelim(last))
               then [c] + FlattenFrom(if c == '\n' then last else c, rest) else FlattenFrom(last, rest)
  {
  }

  function Flatten(script: string): string {
    FlattenFrom('\0', script)
  }

  /** Adding a copied character to the output instead of to what is still to come. */
  lemma {:induction false} CopyOne(done: string, c: char, rest: string)
    ensures done + ([c] + rest) == done + [c] + rest
  {
  }

  lemma {:induction false} FlattenNothing(last: char)
    ensures FlattenFrom(last, "") == ""
  {
  }

  method FlattenScript(script: string) returns (flat: string)
    ensures flat == Flatten(script)
  {
    hide FlattenFrom;
    var buf := new char[|script| + 1];
    var pos, i, last := 0, 0, '\0';
    assert script[0..] == script && buf[..0] == "";
    while i < |script|
      invariant pos <= i <= |script|
      invariant Flatten(script) == buf[..pos] + FlattenFrom(last, script[i..])
    {
      ghost var done := buf[..pos];
      assert script[i..][1..] == script[i + 1..];
      var c := script[i];
      FlattenStep(last, script[i..]);
      i := i + 1;
      if c != '\r' && (c != '\n' || last == '\0' || !IsDelim(last)) {
        buf[pos] := c;
        pos := pos + 1;
        assert buf[..pos] == done + [c];
        CopyOne(done, c, FlattenFrom(if c == '\n' then last else c, script[i..]));
        if c != '\n' {
          last := c;
        }
      }
    }
    FlattenNothing(last);
    assert script[i..] == "";
    flat := buf[..pos];
    assert flat + "" == flat;
    buf[pos] := '\0';
  }

  function Concat(parts: seq<string>): string {
    if parts == [] then "" else parts[0] + Concat(parts[1..])
  }

  lemma {:induction false} FlattenPlain(last: char, s: string, rest: string)
    requires s != "" && NoNewline(s)
    ensures FlattenFrom(last, s + rest) == s + FlattenFrom(s[|s| - 1], rest)
    decreases |s|
  {
    var text, c := s + rest, s[0];
    assert text[0] == c && text[1..] == s[1..] + rest;
    if |s| == 1 {
      assert s[1..] + rest == rest && s == [c];
    } else {
      FlattenPlain(c, s[1..], rest);
      assert s == [c] + s[1..];
    }
  }

  /** Flattening a joined sentence list puts the sentences side by side. */
  lemma {:induction false} FlattenJoin(last: char, parts: seq<string>)
    requires SentenceList(parts)
    ensures FlattenFrom(last, Join(parts)) == Concat(parts)
    decreases |parts|
  {
    if parts != [] {
      var s, rest := parts[0], parts[1..];
      if rest == [] {
        FlattenPlain(last, s, "");
        assert s + "" == s;
      } else {
        var tail := Join(rest);
        assert Join(parts) == s + ("\n" + tail);
        FlattenPlain(last, s, "\n" + tail);
        assert EndsDelim(s) && ("\n" + tail)[1..] == tail;
        FlattenJoin(s[|s| - 1], rest);
      }
    }
  }

  function WithoutBreaks(s: string): string {
    if s == "" then "" else (if s[0] == '\n' || s[0] == '\r' then "" else [s[0]]) + WithoutBreaks(s[1..])
  }

  /** Flattening drops line breaks and carriage returns only, and every carriage return. */
  lemma {:induction false} FlattenDropsBreaks(last: char, script: string)
    ensures WithoutBreaks(FlattenFrom(last, script)) == WithoutBreaks(script)
    ensures '\r' !in FlattenFrom(last, script)
    decreases |script|
  {
    if script != "" {
      var c, rest := script[0], script[1..];
      FlattenStep(last, script);
      hide FlattenFrom;
      FlattenDropsBreaks(last, rest);
      FlattenDropsBreaks(c, rest);
    }
  }

  /** A line break stays unless the text before it ends in one of the three delimiters. */
  lemma {:induction false} FlattenKeepsOpenLines(last: char, s: string, rest: string)
    requires s != "" && forall k :: 0 <= k < |s| ==> s[k] != '\n' && s[k] != '\r' && s[k] != '\0'
    ensures var c := s[|s| - 1];
            FlattenFrom(last, s + "\n" + rest)
            == s + (if c == '.' || c == '!' || c == '?' then "" else "\n") + FlattenFrom(c, rest)
  {
    var c, tail := s[|s| - 1], "\n" + rest;
    assert s + "\n" + rest == s + tail && tail[1..] == rest;
    FlattenPlain(last, s, tail);
    FlattenStep(c, tail);
  }

  /** No line breaks, no blanks at the ends, and none right after a delimiter. */
  predicate Clean(text: string) {
    && NoNewline(text) && Trimmed(text)
    && forall k :: 0 <= k < |text| - 1 && IsDelim(text[k]) ==> !IsBlank(text[k + 1])
  }

  lemma {:induction false} ConcatIsClean(parts: seq<string>)
    requires SentenceList(parts)
    ensures Clean(Concat(parts))
    ensures parts != [] ==> Concat(parts) != "" && Concat(parts)[0] == parts[0][0]
  {
    if parts != [] {
      var s, rest := parts[0], parts[1..];
      ConcatIsClean(rest);
      var tail := Concat(rest);
      var all := s + tail;
      var front := s[..|s| - 1];
      assert forall j :: 0 <= j < |front| ==> front[j] == all[j];
      forall k | 0 <= k < |all| - 1 && IsDelim(all[k]) ensures !IsBlank(all[k + 1]) {
        if k >= |s| { assert tail[k - |s|] == all[k]; }
      }
    }
  }

  /** What is left of a clean text behind a delimiter is clean, and so is what is in front. */
  lemma {:induction false} CleanAtDelim(buf: string, c: char, rest: string)
    requires Clean(buf + [c] + rest) && IsDelim(c)
    ensures Trim(buf + [c]) == buf + [c] && Clean(rest)
  {
    var head, all := buf + [c], buf + [c] + rest;
    assert head[0] == all[0] && all[|buf|] == c;
    TrimFindsCore("", head, "");
    assert head == "" + head + "";
    assert forall k :: 0 <= k < |rest| ==> rest[k] == all[|head| + k];
  }

  /** A clean text is the concatenation of its sentences. */
  lemma {:induction false} ConcatSplitFrom(buf: string, text: string)
    requires Clean(buf + text) && NoDelim(buf)
    ensures Concat(SplitFrom(buf, text)) == buf + text
    decreases |text|
  {
    if text == "" {
      assert buf + text == "" + buf + "" == buf;
      TrimFindsCore("", buf, "");
      assert Concat([buf][1..]) == "";
    } else {
      var c, rest := text[0], text[1..];
      var head := buf + [c];
      assert buf + text == head + rest;
      assert c == (buf + text)[|buf|];
      hide Clean, Trim;
      NotSpaced(buf, c, rest);
      if IsDelim(c) {
        CleanAtDelim(buf, c, rest);
        assert "" + rest == rest;
        ConcatSplitFrom("", rest);
        var tail := SplitFrom("", rest);
        assert SplitFrom(buf, text) == [head] + tail && ([head] + tail)[1..] == tail;
      } else {
        ConcatSplitFrom(head, rest);
      }
    }
  }

  lemma {:induction false} NotSpaced(buf: string, c: char, rest: string)
    requires Clean(buf + [c] + rest)
    ensures Spaced(c) == c
  {
    assert (buf + [c] + rest)[|buf|] == c;
  }

  /** The script survives storing and flattening exactly when it is clean. */
  lemma {:induction false} ScriptRoundTrip(text: string)
    ensures Flatten(Join(Split(text))) == text <==> Clean(text)
  {
    SplitShape(text);
    FlattenJoin('\0', Split(text));
    ConcatIsClean(Split(text));
    if Clean(text) {
      assert "" + text == text;
      ConcatSplitFrom("", text);
    }
  }
}
