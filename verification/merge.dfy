/** The commit-time merge: how a write session finds its sentence again in a file that
    others may have changed, and what the stored document becomes. */
module Merge {
  import opened Text
  import opened Wrappers

  /** What a write session remembers. An empty baseline marks a session that appends. */
  datatype Session = Session(index: nat, sentences: seq<string>, baseline: string, text: string)

  function Begin(text: string, index: int): Option<Session> {
    var sentences := Split(text);
    if index < 0 || index > |sentences| then None
    else if index < |sentences| then Some(Session(index, sentences, sentences[index], sentences[index]))
    else Some(Session(index, sentences, "", ""))
  }

  const ContextLimit := 4

  /** Consecutive equal neighbours of `candidate` in `latest` and of `target` in `original`,
      counted from distance `step` outwards and at most up to the context limit. */
  function MatchesFrom(latest: seq<string>, original: seq<string>, candidate: int, target: int, direction: int, step: nat): nat
    decreases ContextLimit + 1 - step
  {
    var o, l := target + direction * step, candidate + direction * step;
    if step > ContextLimit || o < 0 || o >= |original| || l < 0 || l >= |latest| || original[o] != latest[l] then 0
    else 1 + MatchesFrom(latest, original, candidate, target, direction, step + 1)
  }

  function ContextMatches(latest: seq<string>, s: Session, candidate: int, direction: int): nat {
    MatchesFrom(latest, s.sentences, candidate, s.index, direction, 1)
  }

  function Score(latest: seq<string>, s: Session, i: nat): int {
    var distance := if i < s.index then s.index - i else i - s.index;
    ContextMatches(latest, s, i, -1) * 1000 + ContextMatches(latest, s, i, 1) * 500
    - distance * 10 - (if i < s.index then 50 else 0)
  }

  predicate IsCandidate(latest: seq<string>, s: Session, i: int) {
    0 <= i < |latest| && latest[i] == s.baseline
  }

  /** `k` is the first candidate of highest score among the first `n` sentences. */
  ghost predicate Best(latest: seq<string>, s: Session, k: int, n: nat) {
    && IsCandidate(latest, s, k) && k < n
    && (forall j :: 0 <= j < n && IsCandidate(latest, s, j) ==> Score(latest, s, j) <= Score(latest, s, k))
    && (forall j :: 0 <= j < k && IsCandidate(latest, s, j) ==> Score(latest, s, j) < Score(latest, s, k))
  }

  /** The relocated index, or -1 when no sentence equals the baseline. */
  function Locate(latest: seq<string>, s: Session, n: nat): (k: int)
    requires n <= |latest|
    ensures k == -1 <==> s.baseline !in latest[..n]
    ensures k != -1 ==> Best(latest, s, k, n)
  {
    if n == 0 then -1
    else
      var k := Locate(latest, s, n - 1);
      assert latest[..n] == latest[..n - 1] + [latest[n - 1]];
      if latest[n - 1] == s.baseline && (k == -1 || Score(latest, s, n - 1) > Score(latest, s, k)) then n - 1 else k
  }

  lemma {:induction false} LocateStep(latest: seq<string>, s: Session, n: nat)
    requires n < |latest|
    ensures var k := Locate(latest, s, n);
            Locate(latest, s, n + 1)
            == if latest[n] == s.baseline && (k == -1 || Score(latest, s, n) > Score(latest, s, k)) then n else k
  {
  }

  function Splice(latest: seq<string>, k: nat, removed: nat, parts: seq<string>): seq<string>
    requires k + removed <= |latest|
  {
    latest[..k] + parts + latest[k + removed..]
  }

  function MergeInto(latest: seq<string>, s: Session): Option<seq<string>> {
    if s.baseline != "" then
      var k := Locate(latest, s, |latest|);
      if k == -1 then None else Some(Splice(latest, k, 1, Split(s.text)))
    else Some(Splice(latest, Min(s.index, |latest|), 0, Split(s.text)))
  }

  /** The text a commit stores over `text`, or None for a conflict. */
  function Commit(text: string, s: Session): Option<string> {
    var merged := MergeInto(Split(text), s);
    if merged.None? then None else Some(Join(merged.value))
  }

  // --------------------------------------------------------------- commit shape

  /** Replacing fails exactly when the baseline is gone; otherwise one occurrence of it, and
      nothing else, is exchanged. Appending always succeeds and removes nothing. */
  lemma {:induction false} CommitShape(text: string, s: Session) returns (k: nat)
    ensures Commit(text, s) == None <==> s.baseline != "" && s.baseline !in Split(text)
    ensures Commit(text, s).Some? ==>
              var latest := Split(text);
              && k <= |latest|
              && (s.baseline != "" ==>
                    && Best(latest, s, k, |latest|)
                    && Commit(text, s).value == Join(latest[..k] + Split(s.text) + latest[k + 1..]))
              && (s.baseline == "" ==>
                    && k == Min(s.index, |latest|)
                    && Commit(text, s).value == Join(latest[..k] + Split(s.text) + latest[k..]))
  {
    var latest := Split(text);
    assert latest[..|latest|] == latest;
    if s.baseline == "" {
      k := Min(s.index, |latest|);
    } else if s.baseline in latest {
      k := Locate(latest, s, |latest|);
    } else {
      k := 0;
    }
  }

  /** A committed file re-splits to the fused splice. */
  lemma {:induction false} CommitResplits(text: string, s: Session)
    requires Commit(text, s).Some?
    ensures Split(Commit(text, s).value) == Fuse(MergeInto(Split(text), s).value)
  {
    MergeIsSegments(text, s);
    SplitJoin(MergeInto(Split(text), s).value);
  }

  lemma {:induction false} MergeIsSegments(text: string, s: Session)
    requires Commit(text, s).Some?
    ensures MergeInto(Split(text), s).Some? && Segments(MergeInto(Split(text), s).value)
    ensures Commit(text, s).value == Join(MergeInto(Split(text), s).value)
  {
    SplitShape(text);
    SplitShape(s.text);
    hide Segment, Split, Join, Delimited;
  }

  /** A commit's visible text is the kept prefix, the new text and the kept suffix, and its
      words are the words of the merged sentences one after the other. */
  lemma {:induction false} CommitConservesText(text: string, s: Session) returns (k: nat, removed: nat)
    requires Commit(text, s).Some?
    ensures removed == (if s.baseline == "" then 0 else 1)
    ensures k + removed <= |Split(text)|
    ensures removed == 1 ==> Split(text)[k] == s.baseline
    ensures var latest := Split(text);
            && NonBlank(Commit(text, s).value)
               == NonBlankAll(latest[..k]) + NonBlank(s.text) + NonBlankAll(latest[k + removed..])
            && Words(Commit(text, s).value)
               == WordsAll(latest[..k]) + WordsAll(Split(s.text)) + WordsAll(latest[k + removed..])
  {
    var latest, parts := Split(text), Split(s.text);
    k := CommitShape(text, s);
    removed := if s.baseline == "" then 0 else 1;
    var prefix, suffix := latest[..k], latest[k + removed..];
    NonBlankJoin('\n', prefix + parts + suffix);
    NonBlankAllConcat(prefix + parts, suffix);
    NonBlankAllConcat(prefix, parts);
    SplitJoinConservesText(s.text);
    WordsJoin('\n', prefix + parts + suffix);
    WordsAllConcat(prefix + parts, suffix);
    WordsAllConcat(prefix, parts);
  }

  // ------------------------------------------------------------------ relocation

  function FullPrefix(s: Session): int {
    Min(ContextLimit, s.index)
  }

  function FullSuffix(s: Session): int {
    Min(ContextLimit, |s.sentences| - 1 - s.index)
  }

  /** The candidate sees all the neighbours the session's own sentence had, up to the limit. */
  predicate FullContext(latest: seq<string>, s: Session, i: nat) {
    ContextMatches(latest, s, i, -1) == FullPrefix(s) && ContextMatches(latest, s, i, 1) == FullSuffix(s)
  }

  lemma {:induction false} MatchesBound(latest: seq<string>, original: seq<string>, candidate: int, target: nat, direction: int, step: nat)
    requires direction == 1 || direction == -1
    requires 1 <= step <= ContextLimit + 1
    requires target < |original|
    ensures direction == -1 ==> MatchesFrom(latest, original, candidate, target, direction, step) + step - 1 <= Min(ContextLimit, target)
                                || MatchesFrom(latest, original, candidate, target, direction, step) == 0
    ensures direction == 1 ==> MatchesFrom(latest, original, candidate, target, direction, step) + step - 1 <= Min(ContextLimit, |original| - 1 - target)
                               || MatchesFrom(latest, original, candidate, target, direction, step) == 0
    decreases ContextLimit + 1 - step
  {
    if step <= ContextLimit {
      MatchesBound(latest, original, candidate, target, direction, step + 1);
    }
  }

  lemma {:induction false} MatchesSelf(original: seq<string>, target: nat, direction: int, step: nat)
    requires direction == 1 || direction == -1
    requires 1 <= step <= ContextLimit + 1
    requires target < |original|
    ensures var available := if direction == 1 then |original| - 1 - target else target;
            MatchesFrom(original, original, target, target, direction, step)
            == if step - 1 <= Min(ContextLimit, available) then Min(ContextLimit, available) - (step - 1) else 0
    decreases ContextLimit + 1 - step
  {
    if step <= ContextLimit {
      MatchesSelf(original, target, direction, step + 1);
    }
  }

  /** On an unchanged file the session's own index wins, even among equal sentences. */
  lemma {:induction false} RelocatesToItself(s: Session)
    requires s.index < |s.sentences| && s.baseline == s.sentences[s.index]
    ensures Locate(s.sentences, s, |s.sentences|) == s.index
  {
    hide Locate, MatchesFrom;
    var latest := s.sentences;
    assert latest[..|latest|] == latest;
    var k := Locate(latest, s, |latest|);
    assert IsCandidate(latest, s, s.index);
    MatchesSelf(latest, s.index, -1, 1);
    MatchesSelf(latest, s.index, 1, 1);
    MatchesBound(latest, latest, k, s.index, -1, 1);
    MatchesBound(latest, latest, k, s.index, 1, 1);
  }

  /** Scores of context counts (p, q) against full counts (fp, fq), at signed distances d and e. */
  lemma {:induction false} FullContextScoresHigher(p: int, q: int, fp: int, fq: int, d: int, e: int)
    requires p <= fp && q <= fq && (p != fp || q != fq)
    requires -45 <= e <= 49
    ensures var high := fp * 1000 + fq * 500 - (if e < 0 then -e else e) * 10 - (if e < 0 then 50 else 0);
            var low := p * 1000 + q * 500 - (if d < 0 then -d else d) * 10 - (if d < 0 then 50 else 0);
            if d > e then low <= high else low < high
  {
    assert p * 1000 + q * 500 <= fp * 1000 + fq * 500 - 500;
  }

  /** If an occurrence with full context is within the window, the chosen one has full context. */
  lemma {:induction false} RelocatesToFullContext(latest: seq<string>, s: Session, c: nat)
    requires s.index < |s.sentences|
    requires IsCandidate(latest, s, c) && FullContext(latest, s, c)
    requires s.index - 45 <= c <= s.index + 49
    ensures Locate(latest, s, |latest|) != -1
    ensures FullContext(latest, s, Locate(latest, s, |latest|))
  {
    hide Locate, MatchesFrom;
    assert latest[..|latest|] == latest;
    var k := Locate(latest, s, |latest|);
    MatchesBound(latest, s.sentences, k, s.index, -1, 1);
    MatchesBound(latest, s.sentences, k, s.index, 1, 1);
    assert Score(latest, s, k) >= Score(latest, s, c);
    if !FullContext(latest, s, k) {
      FullContextScoresHigher(ContextMatches(latest, s, k, -1), ContextMatches(latest, s, k, 1),
                              FullPrefix(s), FullSuffix(s), k - s.index, c - s.index);
    }
  }

  /** The right bound is exact: at every larger distance, and whatever three sentences occur,
      a session loses the occurrence that has its full context to one that has none of it. */
  lemma {:induction false} RightWindowIsExact(d: nat, b: string, n: string, x: string)
    returns (orig: string, cur: string, s: Session, c: nat)
    requires d > 49
    requires Sentence(b) && Sentence(n) && Sentence(x) && b != n && b != x && n != x
    ensures Begin(orig, s.index) == Some(s) && s.index < |Split(orig)|
    ensures var latest := Split(cur);
            && IsCandidate(latest, s, c) && FullContext(latest, s, c) && c == s.index + d
            && Locate(latest, s, |latest|) != -1 && !FullContext(latest, s, Locate(latest, s, |latest|))
  {
    var latest := seq(d + 2, i => if i == 0 || i == d then b else if i == d + 1 then n else x);
    JoinedSentences([b, n]);
    JoinedSentences(latest);
    hide Split, Join, Segment, EndsDelim;
    orig, cur, c := Join([b, n]), Join(latest), d;
    s := Session(0, [b, n], b, b);
    RightExampleLoses(latest, s, d, b, n, x);
  }

  lemma {:induction false} RightExampleLoses(latest: seq<string>, s: Session, d: nat, b: string, n: string, x: string)
    requires d > 49 && b != n && b != x && n != x && s == Session(0, [b, n], b, b)
    requires |latest| == d + 2
    requires forall i :: 0 <= i < d + 2 ==> latest[i] == if i == 0 || i == d then b else if i == d + 1 then n else x
    ensures IsCandidate(latest, s, d) && FullContext(latest, s, d)
    ensures Locate(latest, s, |latest|) != -1 && !FullContext(latest, s, Locate(latest, s, |latest|))
  {
    assert latest[..|latest|] == latest;
    assert latest[0] == b && latest[1] == x && latest[d] == b && latest[d + 1] == n;
    assert ContextMatches(latest, s, 0, 1) == 0;
    assert MatchesFrom(latest, s.sentences, d, 0, 1, 2) == 0;
    assert ContextMatches(latest, s, d, 1) == 1;
    assert Score(latest, s, 0) == 0;
    assert Score(latest, s, d) == 500 - d * 10;
    assert forall j :: 0 < j < d ==> !IsCandidate(latest, s, j);
    assert !IsCandidate(latest, s, d + 1);
    var k := Locate(latest, s, |latest|);
    assert IsCandidate(latest, s, 0);
  }

  /** So is the left one. */
  lemma {:induction false} LeftWindowIsExact(d: nat, b: string, n: string, x: string)
    returns (orig: string, cur: string, s: Session, c: nat)
    requires d > 45
    requires Sentence(b) && Sentence(n) && Sentence(x) && b != n && b != x && n != x
    ensures Begin(orig, s.index) == Some(s) && s.index < |Split(orig)|
    ensures var latest := Split(cur);
            && IsCandidate(latest, s, c) && FullContext(latest, s, c) && c == s.index - d
            && Locate(latest, s, |latest|) != -1 && !FullContext(latest, s, Locate(latest, s, |latest|))
  {
    var t := d + 4;
    var original := seq(t + 2, i => if i == t then b else if i == t + 1 then n else x);
    var latest := seq(t + 2, i => if i == 4 || i == t then b else if i == 5 then n else x);
    JoinedSentences(original);
    JoinedSentences(latest);
    hide Split, Join, Segment, EndsDelim;
    orig, cur, c := Join(original), Join(latest), 4;
    s := Session(t, original, b, b);
    LeftExampleLoses(latest, s, t, b, n, x);
  }

  /** `s` began on b and n behind many x; now b and n stand four from the front, too. */
  predicate IsLeftExample(latest: seq<string>, s: Session, t: nat, b: string, n: string, x: string) {
    && b != n && b != x && n != x
    && t >= 10 && s.index == t && s.baseline == b && |latest| == |s.sentences| == t + 2
    && (forall i :: 0 <= i < t ==> s.sentences[i] == x) && s.sentences[t] == b && s.sentences[t + 1] == n
    && (forall i :: 0 <= i < t + 2 ==> latest[i] == if i == 4 || i == t then b else if i == 5 then n else x)
  }

  lemma {:induction false} LeftExampleLoses(latest: seq<string>, s: Session, t: nat, b: string, n: string, x: string)
    requires IsLeftExample(latest, s, t, b, n, x) && t > 45 + 4
    ensures IsCandidate(latest, s, 4) && FullContext(latest, s, 4)
    ensures Locate(latest, s, |latest|) != -1 && !FullContext(latest, s, Locate(latest, s, |latest|))
  {
    LeftExampleScores(latest, s, t, b, n, x);
    assert latest[..|latest|] == latest;
    assert IsCandidate(latest, s, t) && IsCandidate(latest, s, 4);
    assert Score(latest, s, t) > Score(latest, s, 4);
    var k := Locate(latest, s, |latest|);
    assert k == t;
  }

  lemma {:induction false} LeftExampleScores(latest: seq<string>, s: Session, t: nat, b: string, n: string, x: string)
    requires IsLeftExample(latest, s, t, b, n, x)
    ensures ContextMatches(latest, s, t, 1) == 0 && ContextMatches(latest, s, 4, 1) == 1
    ensures ContextMatches(latest, s, t, -1) == 4 && ContextMatches(latest, s, 4, -1) == 4
  {
    RunOf(x, latest, s.sentences, 4, t, 1);
    RunOf(x, latest, s.sentences, t, t, 1);
    assert MatchesFrom(latest, s.sentences, 4, t, 1, 2) == 0;
  }

  lemma {:induction false} RunOf(x: string, latest: seq<string>, original: seq<string>, candidate: nat, target: nat, step: nat)
    requires 1 <= step <= ContextLimit + 1
    requires ContextLimit <= candidate <= |latest| && ContextLimit <= target <= |original|
    requires forall i :: candidate - ContextLimit <= i < candidate ==> latest[i] == x
    requires forall i :: target - ContextLimit <= i < target ==> original[i] == x
    ensures MatchesFrom(latest, original, candidate, target, -1, step) == ContextLimit + 1 - step
    decreases ContextLimit + 1 - step
  {
    if step <= ContextLimit {
      RunOf(x, latest, original, candidate, target, step + 1);
    }
  }

  // ------------------------------------------------------- what the context is worth

  /** The neighbours counted behind a candidate: all equal, and the next one differs, is missing,
      or would be the fifth. */
  lemma {:induction false} CountedBehind(latest: seq<string>, original: seq<string>, c: nat, t: nat, step: nat)
    requires c < |latest| && t < |original| && 1 <= step <= ContextLimit + 1
    ensures var end := step + MatchesFrom(latest, original, c, t, 1, step);
            && end <= 5
            && (forall l :: c + step <= l < c + end ==> l < |latest| && l - c + t < |original| && latest[l] == original[l - c + t])
            && (end < 5 ==> c + end >= |latest| || t + end >= |original| || latest[c + end] != original[t + end])
    decreases ContextLimit + 1 - step
  {
    if step <= ContextLimit {
      CountedBehind(latest, original, c, t, step + 1);
    }
  }

  lemma {:induction false} CountedBefore(latest: seq<string>, original: seq<string>, c: nat, t: nat, step: nat)
    requires c < |latest| && t < |original| && 1 <= step <= ContextLimit + 1
    ensures var end := step + MatchesFrom(latest, original, c, t, -1, step);
            && end <= 5
            && (forall l :: c - end < l <= c - step ==> 0 <= l && 0 <= l - c + t && latest[l] == original[l - c + t])
            && (end < 5 ==> c < end || t < end || latest[c - end] != original[t - end])
    decreases ContextLimit + 1 - step
  {
    if step <= ContextLimit {
      CountedBefore(latest, original, c, t, step + 1);
    }
  }

  /** One equal neighbour in front outweighs exactly 99 positions of distance: with nothing else
      equal, the session leaves an occurrence at its own index for one that has the neighbour,
      `d` positions further on, if and only if d is below 100. */
  lemma {:induction false} NeighbourOutweighsDistance(d: nat, b: string, n: string, x: string)
    returns (orig: string, cur: string, s: Session)
    requires d >= 2
    requires Sentence(b) && Sentence(n) && Sentence(x) && b != n && b != x && n != x
    ensures Split(orig) == [n, b] && Begin(orig, 1) == Some(s)
    ensures |Split(cur)| == d + 2
    ensures forall i :: 0 <= i < d + 2 ==> Split(cur)[i] == if i == 1 || i == d + 1 then b else if i == d then n else x
    ensures Locate(Split(cur), s, d + 2) == if d < 100 then d + 1 else 1
  {
    var latest := seq(d + 2, i => if i == 1 || i == d + 1 then b else if i == d then n else x);
    JoinedSentences([n, b]);
    JoinedSentences(latest);
    hide Split, Join, Segment, EndsDelim;
    orig, cur := Join([n, b]), Join(latest);
    s := Session(1, [n, b], b, b);
    NeighbourScores(latest, s, d, b, n, x);
  }

  lemma {:induction false} NeighbourScores(latest: seq<string>, s: Session, d: nat, b: string, n: string, x: string)
    requires d >= 2 && b != n && b != x && n != x && s == Session(1, [n, b], b, b) && |latest| == d + 2
    requires forall i :: 0 <= i < d + 2 ==> latest[i] == if i == 1 || i == d + 1 then b else if i == d then n else x
    ensures Locate(latest, s, d + 2) == if d < 100 then d + 1 else 1
  {
    assert latest[..d + 2] == latest;
    assert latest[0] == x && latest[d] == n;
    assert IsCandidate(latest, s, 1) && IsCandidate(latest, s, d + 1);
    assert forall i :: 0 <= i < d + 2 && i != 1 && i != d + 1 ==> !IsCandidate(latest, s, i);
    assert ContextMatches(latest, s, 1, -1) == 0 && ContextMatches(latest, s, 1, 1) == 0;
    assert MatchesFrom(latest, s.sentences, d + 1, 1, -1, 2) == 0;
    assert ContextMatches(latest, s, d + 1, -1) == 1 && ContextMatches(latest, s, d + 1, 1) == 0;
    assert Score(latest, s, 1) == 0 && Score(latest, s, d + 1) == 1000 - 10 * d;
    var k := Locate(latest, s, d + 2);
  }

  // ------------------------------------------------------------- an unedited session

  lemma {:induction false} SplitNothing()
    ensures Split("") == []
  {
  }

  lemma {:induction false} UneditedKeeps(text: string, i: nat)
    requires i <= |Split(text)|
    ensures Begin(text, i).Some? && Commit(text, Begin(text, i).value) == Some(Join(Split(text)))
  {
    var latest := Split(text);
    SplitShape(text);
    if i < |latest| {
      var s := Session(i, latest, latest[i], latest[i]);
      assert Segment(latest[i]);
      SplitOneSegment("", latest[i]);
      RelocatesToItself(s);
      hide SplitFrom, Segment, Locate;
      assert Splice(latest, i, 1, [latest[i]]) == latest;
    } else {
      SplitNothing();
      assert Splice(latest, i, 0, []) == latest;
    }
  }

  /** A session opens exactly on a sentence or at the end, and commits the sentences it found
      when nothing has been edited: it starts with the sentence itself, or with nothing. */
  lemma {:induction false} UneditedChangesNothing(text: string, i: int)
    ensures Begin(text, i).Some? <==> 0 <= i <= |Split(text)|
    ensures 0 <= i <= |Split(text)| ==> Commit(text, Begin(text, i).value) == Some(Join(Split(text)))
  {
    if 0 <= i <= |Split(text)| {
      UneditedKeeps(text, i);
    }
  }
}
