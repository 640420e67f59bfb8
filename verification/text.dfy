/** The pure meaning of the storage server's text helpers: trimming, the sentence and
    word splitters, the joiners, and the laws that connect them.

    A C string is modelled by its content, so strings never carry the terminator. */
module Text {

  predicate IsBlank(c: char) {
    c <= ' '
  }

  predicate IsDelim(c: char) {
    c == '.' || c == '!' || c == '?'
  }

  predicate IsNewline(c: char) {
    c == '\n' || c == '\r'
  }

  predicate AllBlank(s: string) {
    forall k :: 0 <= k < |s| ==> IsBlank(s[k])
  }

  predicate NoDelim(s: string) {
    forall k :: 0 <= k < |s| ==> !IsDelim(s[k])
  }

  predicate NoNewline(s: string) {
    forall k :: 0 <= k < |s| ==> !IsNewline(s[k])
  }

  // ---------------------------------------------------------------- trimming

  function TrimRight(s: string): string {
    if s != "" && IsBlank(s[|s| - 1]) then TrimRight(s[..|s| - 1]) else s
  }

  function TrimLeft(s: string): string {
    if s != "" && IsBlank(s[0]) then TrimLeft(s[1..]) else s
  }

  function Trim(s: string): string {
    TrimLeft(TrimRight(s))
  }

  predicate Trimmed(s: string) {
    s != "" ==> !IsBlank(s[0]) && !IsBlank(s[|s| - 1])
  }

  lemma {:induction false} TrimRightDropsSuffix(s: string, b: string)
    requires AllBlank(b)
    requires s != "" ==> !IsBlank(s[|s| - 1])
    ensures TrimRight(s + b) == s
  {
    if b == "" {
      assert s + b == s;
    } else {
      var c := b[..|b| - 1];
      assert (s + b)[..|s + b| - 1] == s + c;
      TrimRightDropsSuffix(s, c);
    }
  }

  lemma {:induction false} TrimLeftDropsPrefix(a: string, s: string)
    requires AllBlank(a)
    requires s != "" ==> !IsBlank(s[0])
    ensures TrimLeft(a + s) == s
  {
    if a == "" {
      assert a + s == s;
    } else {
      assert (a + s)[1..] == a[1..] + s;
      TrimLeftDropsPrefix(a[1..], s);
    }
  }

  /** Trimming finds the one trimmed core of a text, whatever blanks surround it. */
  lemma {:induction false} TrimFindsCore(a: string, s: string, b: string)
    requires AllBlank(a) && AllBlank(b) && Trimmed(s)
    ensures Trim(a + s + b) == s
  {
    if s == "" {
      assert a + s + b == "" + (a + b);
      TrimRightDropsSuffix("", a + b);
    } else {
      TrimRightDropsSuffix(a + s, b);
      TrimLeftDropsPrefix(a, s);
    }
  }

  /** Every text is a trimmed core between two runs of blanks. */
  lemma {:induction false} TrimSplits(s: string) returns (a: string, b: string)
    ensures AllBlank(a) && AllBlank(b) && Trimmed(Trim(s)) && s == a + Trim(s) + b
  {
    b := TrimRightSplits(s);
    a := TrimLeftSplits(TrimRight(s));
    var t := Trim(s);
    assert t != "" ==> t[|t| - 1] == TrimRight(s)[|TrimRight(s)| - 1];
  }

  lemma {:induction false} TrimRightSplits(s: string) returns (b: string)
    ensures AllBlank(b) && s == TrimRight(s) + b
    ensures TrimRight(s) != "" ==> !IsBlank(TrimRight(s)[|TrimRight(s)| - 1])
  {
    if s != "" && IsBlank(s[|s| - 1]) {
      b := TrimRightSplits(s[..|s| - 1]);
      b := b + [s[|s| - 1]];
    } else {
      b := "";
    }
  }

  lemma {:induction false} TrimLeftSplits(s: string) returns (a: string)
    ensures AllBlank(a) && s == a + TrimLeft(s)
    ensures TrimLeft(s) != "" ==> !IsBlank(TrimLeft(s)[0])
  {
    if s != "" && IsBlank(s[0]) {
      a := TrimLeftSplits(s[1..]);
      a := [s[0]] + a;
    } else {
      a := "";
    }
  }

  // --------------------------------------------------------------- sentences

  function Spaced(c: char): char {
    if IsNewline(c) then ' ' else c
  }

  function Emit(buf: string): seq<string> {
    if Trim(buf) == "" then [] else [Trim(buf)]
  }

  /** What the splitter still outputs when `buf` is in the sentence buffer and `text` is unread. */
  function SplitFrom(buf: string, text: string): seq<string>
    decreases |text|
  {
    if text == "" then Emit(buf)
    else
      var c := Spaced(text[0]);
      if IsDelim(c) then Emit(buf + [c]) + SplitFrom("", text[1..])
      else SplitFrom(buf + [c], text[1..])
  }

  function Split(text: string): seq<string> {
    SplitFrom("", text)
  }

  function JoinWith(sep: char, parts: seq<string>): string {
    if parts == [] then ""
    else if |parts| == 1 then parts[0]
    else parts[0] + [sep] + JoinWith(sep, parts[1..])
  }

  function Join(sentences: seq<string>): string {
    JoinWith('\n', sentences)
  }

  predicate EndsDelim(s: string) {
    s != "" && IsDelim(s[|s| - 1])
  }

  /** A non-empty trimmed line with a delimiter, if any, only at its end. */
  predicate Segment(s: string) {
    s != "" && Trimmed(s) && NoNewline(s) && NoDelim(s[..|s| - 1])
  }

  predicate Segments(parts: seq<string>) {
    forall k :: 0 <= k < |parts| ==> Segment(parts[k])
  }

  /** Every segment but possibly the last carries its delimiter. */
  predicate Delimited(parts: seq<string>) {
    forall k :: 0 <= k < |parts| - 1 ==> EndsDelim(parts[k])
  }

  predicate SentenceList(parts: seq<string>) {
    Segments(parts) && Delimited(parts)
  }

  /** Each undelimited segment is glued to its successor by one space. */
  function Fuse(parts: seq<string>): seq<string>
    decreases |parts|
  {
    if |parts| <= 1 then parts
    else if EndsDelim(parts[0]) then [parts[0]] + Fuse(parts[1..])
    else Fuse([parts[0] + " " + parts[1]] + parts[2..])
  }

  lemma {:induction false} SplitFromPlain(buf: string, s: string, text: string)
    requires NoDelim(s) && NoNewline(s)
    ensures SplitFrom(buf, s + text) == SplitFrom(buf + s, text)
    decreases |s|
  {
    if s == "" {
      assert s + text == text && buf + s == buf;
    } else {
      assert (s + text)[1..] == s[1..] + text;
      SplitFromPlain(buf + [s[0]], s[1..], text);
      assert buf + [s[0]] + s[1..] == buf + s;
    }
  }

  lemma {:induction false} SplitFromSegment(a: string, s: string, text: string)
    requires AllBlank(a) && Segment(s)
    ensures EndsDelim(s) ==> SplitFrom(a, s + text) == [s] + SplitFrom("", text)
    ensures !EndsDelim(s) ==> SplitFrom(a, s + text) == SplitFrom(a + s, text)
  {
    var n := |s| - 1;
    if EndsDelim(s) {
      var body := s[..n];
      var rest := [s[n]] + text;
      assert s + text == body + rest;
      SplitFromPlain(a, body, rest);
      assert rest[1..] == text;
      assert a + body + [s[n]] == a + s + "";
      TrimFindsCore(a, s, "");
    } else {
      SplitFromPlain(a, s, text);
    }
  }

  lemma {:induction false} SplitFromNewline(buf: string, text: string)
    ensures SplitFrom(buf, "\n" + text) == SplitFrom(buf + " ", text)
  {
    assert ("\n" + text)[1..] == text;
  }

  lemma {:induction false} JoinStep(sep: char, s: string, rest: seq<string>)
    ensures JoinWith(sep, [s] + rest) == if rest == [] then s else s + [sep] + JoinWith(sep, rest)
  {
    assert ([s] + rest)[1..] == rest;
  }

  lemma {:induction false} GluedIsSegment(s: string, r: string)
    requires Segment(s) && Segment(r) && !EndsDelim(s)
    ensures Segment(s + " " + r)
    ensures EndsDelim(s + " " + r) == EndsDelim(r)
  {
    var g := s + " " + r;
    assert g[..|g| - 1] == s + " " + r[..|r| - 1];
    assert NoDelim(s) by {
      forall k | 0 <= k < |s| ensures !IsDelim(s[k]) {
        if k < |s| - 1 { assert s[k] == s[..|s| - 1][k]; }
      }
    }
  }

  lemma {:induction false} SplitOneSegment(a: string, s: string)
    requires AllBlank(a) && Segment(s)
    ensures SplitFrom(a, s) == [s]
  {
    assert s + "" == s;
    SplitFromSegment(a, s, "");
    TrimFindsCore(a, s, "");
    assert a + s + "" == a + s;
    TrimFindsCore("", "", "");
  }

  /** The core of the normal form: splitting a joined list from a blank buffer fuses it. */
  lemma {:induction false} SplitJoinFrom(a: string, parts: seq<string>)
    requires AllBlank(a) && Segments(parts)
    ensures SplitFrom(a, Join(parts)) == Fuse(parts)
    decreases |parts|, 0
  {
    if parts == [] {
      TrimFindsCore(a, "", "");
      assert a + "" + "" == a;
    } else {
      var s, rest := parts[0], parts[1..];
      assert parts == [s] + rest;
      JoinStep('\n', s, rest);
      if rest == [] {
        SplitOneSegment(a, s);
      } else {
        var tail := Join(rest);
        assert Join(parts) == s + ("\n" + tail);
        SplitFromSegment(a, s, "\n" + tail);
        hide SplitFrom, Segment, AllBlank, JoinWith;
        if EndsDelim(s) {
          SplitFromNewline("", tail);
          OneBlank();
          SplitJoinFrom(" ", rest);
          assert "" + " " == " ";
        } else {
          SplitFromNewline(a + s, tail);
          SplitJoinGlued(a, s, rest);
        }
      }
    }
  }

  lemma {:induction false} OneBlank()
    ensures AllBlank(" ")
  {
  }

  lemma {:induction false} SplitJoinGlued(a: string, s: string, rest: seq<string>)
    requires AllBlank(a) && Segment(s) && !EndsDelim(s)
    requires rest != [] && Segments(rest)
    ensures SplitFrom(a + s + " ", Join(rest)) == Fuse([s] + rest)
    decreases |rest|, 1
  {
    var r, more := rest[0], rest[1..];
    var g := s + " " + r;
    GluedIsSegment(s, r);
    var glued := [g] + more;
    assert Segments(glued);
    assert rest == [r] + more;
    JoinStep('\n', r, more);
    JoinStep('\n', g, more);
    assert Join(glued) == (s + " ") + Join(rest);
    assert NoDelim(s + " ") by {
      forall k | 0 <= k < |s| ensures !IsDelim(s[k]) {
        if k < |s| - 1 { assert s[k] == s[..|s| - 1][k]; }
      }
    }
    SplitFromPlain(a, s + " ", Join(rest));
    assert a + (s + " ") == a + s + " ";
    SplitJoinFrom(a, glued);
    assert ([s] + rest)[0] == s && ([s] + rest)[1] == r;
    assert ([s] + rest)[2..] == more;
  }

  /** Normal form: splitting what was joined yields the fused list, for every list of segments. */
  lemma {:induction false} SplitJoin(parts: seq<string>)
    requires Segments(parts)
    ensures Split(Join(parts)) == Fuse(parts)
  {
    SplitJoinFrom("", parts);
  }

  lemma {:induction false} FuseKeepsSentences(parts: seq<string>)
    requires Delimited(parts)
    ensures Fuse(parts) == parts
    decreases |parts|
  {
    if |parts| > 1 {
      assert EndsDelim(parts[0]);
      FuseKeepsSentences(parts[1..]);
      assert parts == [parts[0]] + parts[1..];
    }
  }

  predicate Sentence(s: string) {
    Segment(s) && EndsDelim(s)
  }

  /** Joined delimited sentences split into themselves. */
  lemma {:induction false} JoinedSentences(parts: seq<string>)
    requires forall k :: 0 <= k < |parts| ==> Sentence(parts[k])
    ensures Split(Join(parts)) == parts
  {
    SplitJoin(parts);
    FuseKeepsSentences(parts);
  }

  lemma {:induction false} FuseIsSentenceList(parts: seq<string>)
    requires Segments(parts)
    ensures SentenceList(Fuse(parts))
    decreases |parts|
  {
    if |parts| > 1 {
      if EndsDelim(parts[0]) {
        FuseIsSentenceList(parts[1..]);
      } else {
        GluedIsSegment(parts[0], parts[1]);
        FuseIsSentenceList([parts[0] + " " + parts[1]] + parts[2..]);
      }
    }
  }

  lemma {:induction false} JoinHead(parts: seq<string>)
    requires parts != []
    ensures Join(parts) == parts[0] + (if |parts| == 1 then "" else "\n" + Join(parts[1..]))
  {
  }

  lemma {:induction false} FirstLineNotLonger(x: string, y: string, p: string, q: string)
    requires NoNewline(x) && x + p == y + q && (q == "" || q[0] == '\n')
    ensures |x| <= |y|
  {
    forall k | 0 <= k < |x| ensures !IsNewline((y + q)[k]) {
      assert (x + p)[k] == x[k];
    }
    assert q != "" ==> (y + q)[|y|] == q[0];
  }

  lemma {:induction false} SameFirstLine(x: string, y: string, p: string, q: string)
    requires NoNewline(x) && NoNewline(y) && x + p == y + q
    requires (p == "" || p[0] == '\n') && (q == "" || q[0] == '\n')
    ensures x == y && p == q
  {
    FirstLineNotLonger(x, y, p, q);
    FirstLineNotLonger(y, x, q, p);
    assert x == (x + p)[..|x|] && y == (y + q)[..|y|];
    assert p == (x + p)[|x|..] && q == (y + q)[|y|..];
  }

  lemma {:induction false} NoBreakInside(s: string)
    requires Segment(s)
    ensures NoNewline(s) && s != ""
  {
  }

  lemma {:induction false} JoinNotEmpty(parts: seq<string>)
    requires Segments(parts) && parts != []
    ensures Join(parts) != ""
  {
  }

  lemma {:induction false} SameHeadAndTail(a: seq<string>, b: seq<string>)
    requires a != [] && b != [] && a[0] == b[0] && a[1..] == b[1..]
    ensures a == b
  {
    assert a == [a[0]] + a[1..] && b == [b[0]] + b[1..];
  }

  lemma {:induction false} SameAfterBreak(x: string, y: string)
    requires "\n" + x == "\n" + y
    ensures x == y
  {
    assert ("\n" + x)[1..] == x && ("\n" + y)[1..] == y;
  }

  lemma {:induction false} BreakFirst(x: string)
    ensures "\n" + x != "" && ("\n" + x)[0] == '\n'
  {
  }

  /** A joined list of segments says which segments they were. */
  lemma {:induction false} JoinInjective(a: seq<string>, b: seq<string>)
    requires Segments(a) && Segments(b) && Join(a) == Join(b)
    ensures a == b
    decreases |a|
  {
    if a != [] {
      JoinNotEmpty(a);
    }
    if b != [] {
      JoinNotEmpty(b);
    }
    if a != [] && b != [] {
      assert Segment(a[0]) && Segment(b[0]) && Segments(a[1..]) && Segments(b[1..]);
      hide JoinWith, Segment, Segments;
      JoinHead(a);
      JoinHead(b);
      NoBreakInside(a[0]);
      NoBreakInside(b[0]);
      BreakFirst(Join(a[1..]));
      BreakFirst(Join(b[1..]));
      SameFirstLine(a[0], b[0], if |a| == 1 then "" else "\n" + Join(a[1..]), if |b| == 1 then "" else "\n" + Join(b[1..]));
      if |a| > 1 && |b| > 1 {
        SameAfterBreak(Join(a[1..]), Join(b[1..]));
        JoinInjective(a[1..], b[1..]);
      }
      SameHeadAndTail(a, b);
    }
  }

  lemma {:induction false} TrimKeepsLineParts(s: string)
    ensures NoNewline(s) ==> NoNewline(Trim(s))
    ensures NoDelim(s) ==> NoDelim(Trim(s))
    ensures s != "" && NoDelim(s[..|s| - 1]) && Trim(s) != "" ==> NoDelim(Trim(s)[..|Trim(s)| - 1])
  {
    var a, b := TrimSplits(s);
    var t := Trim(s);
    forall k | 0 <= k < |t| ensures t[k] == s[|a| + k] {}
    if s != "" && NoDelim(s[..|s| - 1]) && t != "" {
      forall k | 0 <= k < |t| - 1 ensures !IsDelim(t[k]) {
        assert s[..|s| - 1][|a| + k] == t[k];
      }
    }
  }

  lemma {:induction false} EmitShape(buf: string, c: char)
    requires NoDelim(buf) && NoNewline(buf) && IsDelim(c)
    ensures SentenceList(Emit(buf + [c])) && |Emit(buf + [c])| == 1 && EndsDelim(Emit(buf + [c])[0])
  {
    var full := buf + [c];
    assert full[..|full| - 1] == buf;
    TrimKeepsLineParts(full);
    var a, b := TrimSplits(full);
    DelimSurvivesTrim(buf, c);
  }

  lemma {:induction false} SentencesJoin(first: seq<string>, rest: seq<string>)
    requires SentenceList(first) && SentenceList(rest) && |first| == 1 && EndsDelim(first[0])
    ensures SentenceList(first + rest)
  {
  }

  /** The splitter's output is always a sentence list. */
  lemma {:induction false} SplitFromShape(buf: string, text: string)
    requires NoDelim(buf) && NoNewline(buf)
    ensures SentenceList(SplitFrom(buf, text))
    decreases |text|
  {
    if text == "" {
      TrimKeepsLineParts(buf);
      var a, b := TrimSplits(buf);
    } else {
      var c := Spaced(text[0]);
      if IsDelim(c) {
        EmitShape(buf, c);
        SplitFromShape("", text[1..]);
        hide Segments, Delimited, Emit;
        SentencesJoin(Emit(buf + [c]), SplitFrom("", text[1..]));
      } else {
        SplitFromShape(buf + [c], text[1..]);
      }
    }
  }

  lemma {:induction false} TrimLeftKeepsLast(s: string)
    requires s != "" && !IsBlank(s[|s| - 1])
    ensures TrimLeft(s) != "" && TrimLeft(s)[|TrimLeft(s)| - 1] == s[|s| - 1]
  {
    if IsBlank(s[0]) {
      TrimLeftKeepsLast(s[1..]);
    }
  }

  lemma {:induction false} DelimSurvivesTrim(buf: string, c: char)
    requires IsDelim(c)
    ensures EndsDelim(Trim(buf + [c]))
  {
    TrimLeftKeepsLast(buf + [c]);
  }

  lemma {:induction false} SplitShape(text: string)
    ensures SentenceList(Split(text))
  {
    SplitFromShape("", text);
  }

  /** The same, character by character: where sentences begin and end and what is not inside. */
  lemma {:induction false} SplitCharacters(text: string, k: nat)
    requires k < |Split(text)|
    ensures var s := Split(text)[k];
            && s != "" && s[0] > ' ' && s[|s| - 1] > ' '
            && (forall j :: 0 <= j < |s| ==> s[j] != '\n' && s[j] != '\r')
            && (forall j :: 0 <= j < |s| - 1 ==> s[j] != '.' && s[j] != '!' && s[j] != '?')
            && (k < |Split(text)| - 1 ==> s[|s| - 1] == '.' || s[|s| - 1] == '!' || s[|s| - 1] == '?')
  {
    SplitShape(text);
    var s := Split(text)[k];
    assert Segment(s);
    hide Split;
    forall j | 0 <= j < |s| - 1 ensures !IsDelim(s[j]) {
      assert s[..|s| - 1][j] == s[j];
    }
  }

  /** On the splitter's own outputs, join followed by split is the identity. */
  lemma {:induction false} SplitJoinIdentity(text: string)
    ensures Split(Join(Split(text))) == Split(text)
  {
    SplitShape(text);
    SplitJoin(Split(text));
    FuseKeepsSentences(Split(text));
  }

  // ------------------------------------------------------ non-blank content

  /** The subsequence of visible characters. */
  function NonBlank(s: string): string {
    if s == "" then ""
    else (if s[0] <= ' ' then "" else [s[0]]) + NonBlank(s[1..])
  }

  function NonBlankAll(parts: seq<string>): string {
    if parts == [] then "" else NonBlank(parts[0]) + NonBlankAll(parts[1..])
  }

  lemma {:induction false} NonBlankConcat(a: string, b: string)
    ensures NonBlank(a + b) == NonBlank(a) + NonBlank(b)
    decreases |a|
  {
    if a == "" {
      assert a + b == b;
    } else {
      assert (a + b)[1..] == a[1..] + b;
      NonBlankConcat(a[1..], b);
    }
  }

  lemma {:induction false} NonBlankOfBlank(a: string)
    requires AllBlank(a)
    ensures NonBlank(a) == ""
  {
    if a != "" {
      NonBlankOfBlank(a[1..]);
    }
  }

  lemma {:induction false} NonBlankTrim(s: string)
    ensures NonBlank(Trim(s)) == NonBlank(s)
  {
    var a, b := TrimSplits(s);
    NonBlankConcat(a + Trim(s), b);
    NonBlankConcat(a, Trim(s));
    NonBlankOfBlank(a);
    NonBlankOfBlank(b);
  }

  lemma {:induction false} NonBlankAllConcat(xs: seq<string>, ys: seq<string>)
    ensures NonBlankAll(xs + ys) == NonBlankAll(xs) + NonBlankAll(ys)
    decreases |xs|
  {
    if xs == [] {
      assert xs + ys == ys;
    } else {
      assert (xs + ys)[1..] == xs[1..] + ys;
      NonBlankAllConcat(xs[1..], ys);
    }
  }

  lemma {:induction false} NonBlankJoin(sep: char, parts: seq<string>)
    requires IsBlank(sep)
    ensures NonBlank(JoinWith(sep, parts)) == NonBlankAll(parts)
    decreases |parts|
  {
    if |parts| == 1 {
      assert NonBlankAll(parts[1..]) == "";
    } else if |parts| > 1 {
      NonBlankConcat(parts[0] + [sep], JoinWith(sep, parts[1..]));
      NonBlankConcat(parts[0], [sep]);
      NonBlankOfBlank([sep]);
      NonBlankJoin(sep, parts[1..]);
    }
  }

  lemma {:induction false} NonBlankSnoc(buf: string, c: char)
    ensures NonBlank(buf + [c]) == NonBlank(buf) + (if IsBlank(c) then "" else [c])
  {
    NonBlankConcat(buf, [c]);
    assert [c][1..] == "";
  }

  lemma {:induction false} NonBlankEmit(buf: string)
    ensures NonBlankAll(Emit(buf)) == NonBlank(buf)
  {
    NonBlankTrim(buf);
    if Trim(buf) != "" {
      assert NonBlankAll([Trim(buf)][1..]) == "";
    }
  }

  lemma {:induction false} NonBlankSplitFrom(buf: string, text: string)
    ensures NonBlankAll(SplitFrom(buf, text)) == NonBlank(buf) + NonBlank(text)
    decreases |text|
  {
    if text == "" {
      NonBlankEmit(buf);
      assert NonBlank(text) == "";
    } else {
      var c, rest := Spaced(text[0]), text[1..];
      var buf' := buf + [c];
      NonBlankHead(buf, text);
      if IsDelim(c) {
        var tail := SplitFrom("", rest);
        assert SplitFrom(buf, text) == Emit(buf') + tail;
        NonBlankSplitFrom("", rest);
        assert NonBlankAll(tail) == NonBlank(rest);
        NonBlankEmit(buf');
        NonBlankAllConcat(Emit(buf'), tail);
      } else {
        assert SplitFrom(buf, text) == SplitFrom(buf', rest);
        NonBlankSplitFrom(buf', rest);
      }
    }
  }

  lemma {:induction false} NonBlankHead(buf: string, text: string)
    requires text != ""
    ensures NonBlank(buf) + NonBlank(text) == NonBlank(buf + [Spaced(text[0])]) + NonBlank(text[1..])
  {
    NonBlankSnoc(buf, Spaced(text[0]));
  }

  /** Splitting and joining keep the exact sequence of visible characters. */
  lemma {:induction false} SplitJoinConservesText(text: string)
    ensures NonBlank(Join(Split(text))) == NonBlank(text)
    ensures NonBlankAll(Split(text)) == NonBlank(text)
  {
    NonBlankSplitFrom("", text);
    NonBlankJoin('\n', Split(text));
  }

  // -------------------------------------------------------------------- words

  function EmitWord(cur: string): seq<string> {
    if cur == "" then [] else [cur]
  }

  function WordsFrom(cur: string, text: string): seq<string>
    decreases |text|
  {
    if text == "" then EmitWord(cur)
    else if IsBlank(text[0]) then EmitWord(cur) + WordsFrom("", text[1..])
    else WordsFrom(cur + [text[0]], text[1..])
  }

  function Words(text: string): seq<string> {
    WordsFrom("", text)
  }

  predicate NoBlank(s: string) {
    forall k :: 0 <= k < |s| ==> !IsBlank(s[k])
  }

  predicate Word(w: string) {
    w != "" && NoBlank(w)
  }

  predicate WordList(ws: seq<string>) {
    forall k :: 0 <= k < |ws| ==> Word(ws[k])
  }

  function WordsAll(parts: seq<string>): seq<string> {
    if parts == [] then [] else Words(parts[0]) + WordsAll(parts[1..])
  }

  lemma {:induction false} WordsFromShape(cur: string, text: string)
    requires NoBlank(cur)
    ensures WordList(WordsFrom(cur, text))
    decreases |text|
  {
    if text != "" {
      if IsBlank(text[0]) {
        WordsFromShape("", text[1..]);
      } else {
        WordsFromShape(cur + [text[0]], text[1..]);
      }
    }
  }

  /** Words are non-empty runs of visible characters. */
  lemma {:induction false} WordsShape(text: string)
    ensures WordList(Words(text))
    ensures forall k :: 0 <= k < |Words(text)| ==>
              Words(text)[k] != "" && forall j :: 0 <= j < |Words(text)[k]| ==> Words(text)[k][j] > ' '
  {
    WordsFromShape("", text);
  }

  lemma {:induction false} WordsFromPlain(cur: string, w: string, text: string)
    requires NoBlank(w)
    ensures WordsFrom(cur, w + text) == WordsFrom(cur + w, text)
    decreases |w|
  {
    if w == "" {
      assert w + text == text && cur + w == cur;
    } else {
      assert (w + text)[1..] == w[1..] + text;
      WordsFromPlain(cur + [w[0]], w[1..], text);
      assert cur + [w[0]] + w[1..] == cur + w;
    }
  }

  lemma {:induction false} WordsOfWord(w: string)
    requires NoBlank(w)
    ensures Words(w) == EmitWord(w)
  {
    WordsFromPlain("", w, "");
    assert w + "" == w && "" + w == w;
  }

  lemma {:induction false} WordsFromBreak(cur: string, a: string, sep: char, t: string)
    requires IsBlank(sep)
    ensures WordsFrom(cur, a + [sep] + t) == WordsFrom(cur, a) + Words(t)
    decreases |a|
  {
    var s := a + [sep] + t;
    if a == "" {
      assert s == [sep] + t;
      assert s[1..] == t;
    } else {
      assert s[1..] == a[1..] + [sep] + t;
      if IsBlank(a[0]) {
        WordsFromBreak("", a[1..], sep, t);
      } else {
        WordsFromBreak(cur + [a[0]], a[1..], sep, t);
      }
    }
  }

  /** The words of a joined text are the words of its parts, in order. */
  lemma {:induction false} WordsJoin(sep: char, parts: seq<string>)
    requires IsBlank(sep)
    ensures Words(JoinWith(sep, parts)) == WordsAll(parts)
    decreases |parts|
  {
    if |parts| == 1 {
      assert WordsAll(parts[1..]) == [];
    } else if |parts| > 1 {
      WordsFromBreak("", parts[0], sep, JoinWith(sep, parts[1..]));
      WordsJoin(sep, parts[1..]);
    }
  }

  lemma {:induction false} WordsAllOfWords(ws: seq<string>)
    requires WordList(ws)
    ensures WordsAll(ws) == ws
  {
    if ws != [] {
      WordsOfWord(ws[0]);
      WordsAllOfWords(ws[1..]);
      assert ws == [ws[0]] + ws[1..];
    }
  }

  /** Splitting joined words gives the words back. */
  lemma {:induction false} WordsRoundTrip(ws: seq<string>)
    requires WordList(ws)
    ensures Words(JoinWith(' ', ws)) == ws
  {
    WordsJoin(' ', ws);
    WordsAllOfWords(ws);
  }

  lemma {:induction false} WordsAllConcat(xs: seq<string>, ys: seq<string>)
    ensures WordsAll(xs + ys) == WordsAll(xs) + WordsAll(ys)
    decreases |xs|
  {
    if xs == [] {
      assert xs + ys == ys;
    } else {
      assert (xs + ys)[1..] == xs[1..] + ys;
      WordsAllConcat(xs[1..], ys);
    }
  }

  lemma {:induction false} NonBlankOfNoBlank(w: string)
    requires NoBlank(w)
    ensures NonBlank(w) == w
  {
    if w != "" {
      NonBlankOfNoBlank(w[1..]);
      assert w == [w[0]] + w[1..];
    }
  }

  lemma {:induction false} NonBlankWordsFrom(cur: string, text: string)
    requires NoBlank(cur)
    ensures NonBlankAll(WordsFrom(cur, text)) == cur + NonBlank(text)
    decreases |text|
  {
    if text == "" {
      NonBlankOfNoBlank(cur);
      if cur != "" { assert NonBlankAll([cur][1..]) == ""; }
    } else if IsBlank(text[0]) {
      NonBlankOfNoBlank(cur);
      if cur != "" { assert NonBlankAll([cur][1..]) == ""; }
      NonBlankWordsFrom("", text[1..]);
      NonBlankAllConcat(EmitWord(cur), WordsFrom("", text[1..]));
    } else {
      NonBlankWordsFrom(cur + [text[0]], text[1..]);
    }
  }

  /** The words of a text carry exactly its visible characters. */
  lemma {:induction false} WordsConserveText(text: string)
    ensures NonBlankAll(Words(text)) == NonBlank(text)
  {
    NonBlankWordsFrom("", text);
  }
}
