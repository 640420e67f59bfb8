/** Writers far apart in one document do not disturb each other even when their sentences occur
    more than once: the context score brings each of them back to its own occurrence. */
module Distant {
  import opened Commute
  import opened Merge
  import opened Text
  import opened Wrappers

  /** At signed distance `d` the two lists have the same sentence. */
  predicate Agree(latest: seq<string>, original: seq<string>, candidate: int, target: int, d: int) {
    0 <= candidate + d < |latest| && 0 <= target + d < |original| && latest[candidate + d] == original[target + d]
  }

  lemma {:induction false} AllCountedBehind(latest: seq<string>, s: Session, c: int, step: nat)
    requires 1 <= step <= ContextLimit + 1 && s.index < |s.sentences|
    requires forall d :: step <= d <= FullSuffix(s) ==> Agree(latest, s.sentences, c, s.index, d)
    ensures MatchesFrom(latest, s.sentences, c, s.index, 1, step)
            == if step <= FullSuffix(s) then FullSuffix(s) + 1 - step else 0
    decreases ContextLimit + 1 - step
  {
    if step <= ContextLimit {
      AllCountedBehind(latest, s, c, step + 1);
      assert step <= FullSuffix(s) ==> Agree(latest, s.sentences, c, s.index, step);
    }
  }

  lemma {:induction false} AllCountedBefore(latest: seq<string>, s: Session, c: int, step: int)
    requires 1 <= step <= ContextLimit + 1 && s.index < |s.sentences|
    requires forall d :: -FullPrefix(s) <= d <= -step ==> Agree(latest, s.sentences, c, s.index, d)
    ensures MatchesFrom(latest, s.sentences, c, s.index, -1, step)
            == if step <= FullPrefix(s) then FullPrefix(s) + 1 - step else 0
    decreases ContextLimit + 1 - step
  {
    if step <= ContextLimit {
      AllCountedBefore(latest, s, c, step + 1);
      assert step <= FullPrefix(s) ==> Agree(latest, s.sentences, c, s.index, -step);
    }
  }

  /** The session began on this list, whatever it has written since. */
  predicate BegunOn(start: seq<string>, s: Session) {
    s.index < |start| && s.sentences == start && s.baseline == start[s.index]
  }

  /** Around `c` the file is what it was around the session's own sentence. */
  predicate KeepsContext(latest: seq<string>, s: Session, c: int) {
    && s.index < |s.sentences| && IsCandidate(latest, s, c)
    && forall d :: -FullPrefix(s) <= d <= FullSuffix(s) ==> Agree(latest, s.sentences, c, s.index, d)
  }

  /** No other occurrence of the baseline is surrounded by all the neighbours it had. */
  predicate OnlyContext(latest: seq<string>, s: Session, c: int) {
    forall k :: 0 <= k < |latest| && IsCandidate(latest, s, k) && FullContext(latest, s, k) ==> k == c
  }

  lemma {:induction false} FindsItsOwn(latest: seq<string>, s: Session, c: nat)
    requires KeepsContext(latest, s, c) && OnlyContext(latest, s, c)
    requires s.index - 45 <= c <= s.index + 49
    ensures Locate(latest, s, |latest|) == c
  {
    AllCountedBehind(latest, s, c, 1);
    AllCountedBefore(latest, s, c, 1);
    RelocatesToFullContext(latest, s, c);
    assert latest[..|latest|] == latest;
  }

  function Exchanged(start: seq<string>, i: nat, parts: seq<string>): seq<string>
    requires i < |start|
  {
    start[..i] + parts + start[i + 1..]
  }

  lemma {:induction false} ExchangedAt(start: seq<string>, i: nat, parts: seq<string>, k: nat)
    requires i < |start| && k < |start|
    ensures k < i ==> Exchanged(start, i, parts)[k] == start[k]
    ensures k > i ==> k + |parts| - 1 < |Exchanged(start, i, parts)|
                      && Exchanged(start, i, parts)[k + |parts| - 1] == start[k]
  {
  }

  /** A writer behind the exchanged sentence, more than four away, keeps its context. */
  lemma {:induction false} KeepsContextBehind(start: seq<string>, i: nat, parts: seq<string>, r: Session)
    requires i + ContextLimit < r.index < |start| && BegunOn(start, r)
    ensures KeepsContext(Exchanged(start, i, parts), r, r.index + |parts| - 1)
  {
    var latest, c := Exchanged(start, i, parts), r.index + |parts| - 1;
    ExchangedAt(start, i, parts, r.index);
    forall d | -FullPrefix(r) <= d <= FullSuffix(r) ensures Agree(latest, start, c, r.index, d) {
      ExchangedAt(start, i, parts, r.index + d);
    }
  }

  /** So does one in front of it. */
  lemma {:induction false} KeepsContextBefore(start: seq<string>, j: nat, parts: seq<string>, s: Session)
    requires s.index + ContextLimit < j < |start| && BegunOn(start, s)
    ensures KeepsContext(Exchanged(start, j, parts), s, s.index)
  {
    var latest, c := Exchanged(start, j, parts), s.index;
    ExchangedAt(start, j, parts, c);
    forall d | -FullPrefix(s) <= d <= FullSuffix(s) ensures Agree(latest, start, c, c, d) {
      ExchangedAt(start, j, parts, c + d);
    }
  }

  lemma {:induction false} ExchangedResplits(text: string, i: nat, newText: string)
    requires i < |Split(text)| && (Closed(newText) || i == |Split(text)| - 1)
    ensures var next := Exchanged(Split(text), i, Split(newText));
            Split(Join(next)) == next
  {
    ReplacedResplits(text, i, newText);
  }

  lemma {:induction false} ExchangedTwice(start: seq<string>, i: nat, j: nat, a: seq<string>, b: seq<string>)
    requires i < j < |start|
    ensures j + |a| - 1 < |Exchanged(start, i, a)| && i < |Exchanged(start, j, b)|
    ensures Exchanged(Exchanged(start, i, a), j + |a| - 1, b) == Exchanged(Exchanged(start, j, b), i, a)
    ensures Exchanged(Exchanged(start, j, b), i, a) == BothReplaced(start, i, j, a, b)
  {
    var first, second := Exchanged(start, i, a), Exchanged(start, j, b);
    assert first[..j + |a| - 1] == start[..i] + a + start[i + 1..j];
    assert first[j + |a|..] == start[j + 1..];
    assert second[..i] == start[..i];
    assert second[i + 1..] == start[i + 1..j] + b + start[j + 1..];
  }

  lemma {:induction false} BeginIsBegunOn(text: string, i: nat, newText: string)
    requires i < |Split(text)|
    ensures Begin(text, i).Some? && BegunOn(Split(text), Begin(text, i).value.(text := newText))
    ensures Begin(text, i).value.index == i
  {
  }

  lemma {:induction false} NonEmptyBaseline(text: string, s: Session)
    requires BegunOn(Split(text), s)
    ensures s.baseline != "" && s.index < |Split(text)|
  {
    SplitShape(text);
  }

  predicate FarApart(start: seq<string>, s: Session, r: Session) {
    && BegunOn(start, s) && BegunOn(start, r) && s.index + ContextLimit < r.index
    && Closed(s.text) && (Closed(r.text) || r.index == |start| - 1)
    && |Split(s.text)| - 1 <= 49
  }

  lemma {:induction false} RunExchanged(text: string, s: Session, r: Session, k: nat, j: nat)
    requires s.baseline != "" && r.baseline != ""
    requires k < |Split(text)| && Locate(Split(text), s, |Split(text)|) == k
    requires var next := Exchanged(Split(text), k, Split(s.text));
             Split(Join(next)) == next && j < |next| && Locate(next, r, |next|) == j
    ensures CommitAll(text, [s, r]) == Some(Join(Exchanged(Exchanged(Split(text), k, Split(s.text)), j, Split(r.text))))
  {
    RunOnLists(text, s, r, Split(text), k, j);
  }

  lemma {:induction false} BehindFound(start: seq<string>, s: Session, r: Session, a: seq<string>)
    requires BegunOn(start, s) && BegunOn(start, r) && s.index + ContextLimit < r.index && |a| - 1 <= 49
    requires OnlyContext(Exchanged(start, s.index, a), r, r.index + |a| - 1)
    ensures Locate(start, s, |start|) == s.index
    ensures r.index + |a| - 1 < |Exchanged(start, s.index, a)|
    ensures Locate(Exchanged(start, s.index, a), r, |Exchanged(start, s.index, a)|) == r.index + |a| - 1
  {
    hide OnlyContext, KeepsContext, Locate, Exchanged;
    ExchangedAt(start, s.index, a, r.index);
    KeepsContextBehind(start, s.index, a, r);
    FindsItsOwn(Exchanged(start, s.index, a), r, r.index + |a| - 1);
    RelocatesToItself(s);
  }

  lemma {:induction false} BeforeFound(start: seq<string>, s: Session, r: Session, b: seq<string>)
    requires BegunOn(start, s) && BegunOn(start, r) && s.index + ContextLimit < r.index
    requires OnlyContext(Exchanged(start, r.index, b), s, s.index)
    ensures Locate(start, r, |start|) == r.index
    ensures s.index < |Exchanged(start, r.index, b)|
    ensures Locate(Exchanged(start, r.index, b), s, |Exchanged(start, r.index, b)|) == s.index
  {
    hide OnlyContext, KeepsContext, Locate, Exchanged;
    ExchangedAt(start, r.index, b, s.index);
    KeepsContextBefore(start, r.index, b, s);
    FindsItsOwn(Exchanged(start, r.index, b), s, s.index);
    RelocatesToItself(r);
  }

  lemma {:induction false} FrontFirst(text: string, s: Session, r: Session)
    requires FarApart(Split(text), s, r)
    requires OnlyContext(Exchanged(Split(text), s.index, Split(s.text)), r, r.index + |Split(s.text)| - 1)
    ensures CommitAll(text, [s, r])
            == Some(Join(BothReplaced(Split(text), s.index, r.index, Split(s.text), Split(r.text))))
  {
    hide Split, Join, Closed, OnlyContext, Locate, Exchanged, BothReplaced, CommitAll;
    NonEmptyBaseline(text, s);
    NonEmptyBaseline(text, r);
    ExchangedResplits(text, s.index, s.text);
    BehindFound(Split(text), s, r, Split(s.text));
    ExchangedTwice(Split(text), s.index, r.index, Split(s.text), Split(r.text));
    RunExchanged(text, s, r, s.index, r.index + |Split(s.text)| - 1);
  }

  lemma {:induction false} BackFirst(text: string, s: Session, r: Session)
    requires FarApart(Split(text), s, r)
    requires OnlyContext(Exchanged(Split(text), r.index, Split(r.text)), s, s.index)
    ensures CommitAll(text, [r, s])
            == Some(Join(BothReplaced(Split(text), s.index, r.index, Split(s.text), Split(r.text))))
  {
    hide Split, Join, Closed, OnlyContext, Locate, Exchanged, BothReplaced, CommitAll;
    NonEmptyBaseline(text, s);
    NonEmptyBaseline(text, r);
    ExchangedResplits(text, r.index, r.text);
    BeforeFound(Split(text), s, r, Split(r.text));
    ExchangedTwice(Split(text), s.index, r.index, Split(s.text), Split(r.text));
    RunExchanged(text, r, s, r.index, s.index);
  }

  lemma {:induction false} FarSessionsCommute(text: string, s: Session, r: Session)
    requires FarApart(Split(text), s, r)
    requires OnlyContext(Exchanged(Split(text), s.index, Split(s.text)), r, r.index + |Split(s.text)| - 1)
    requires OnlyContext(Exchanged(Split(text), r.index, Split(r.text)), s, s.index)
    ensures CommitAll(text, [s, r])
            == Some(Join(BothReplaced(Split(text), s.index, r.index, Split(s.text), Split(r.text))))
    ensures CommitAll(text, [r, s]) == CommitAll(text, [s, r])
  {
    FrontFirst(text, s, r);
    BackFirst(text, s, r);
  }

  /** Two writers more than four sentences apart commute although their sentences may occur
      again, as long as no other occurrence has the whole context of theirs when they commit,
      and the first one's text does not push the second one out of the relocation window. */
  lemma {:induction false} DistantWritersCommute(text: string, i: nat, j: nat, newI: string, newJ: string)
    requires i + 4 < j < |Split(text)|
    requires Closed(newI) && (Closed(newJ) || j == |Split(text)| - 1)
    requires |Split(newI)| - 1 <= 49
    requires OnlyContext(Exchanged(Split(text), i, Split(newI)), Begin(text, j).value.(text := newJ), j + |Split(newI)| - 1)
    requires OnlyContext(Exchanged(Split(text), j, Split(newJ)), Begin(text, i).value.(text := newI), i)
    ensures var s, r := Begin(text, i).value.(text := newI), Begin(text, j).value.(text := newJ);
            && CommitAll(text, [s, r]) == Some(Join(BothReplaced(Split(text), i, j, Split(newI), Split(newJ))))
            && CommitAll(text, [r, s]) == CommitAll(text, [s, r])
  {
    BeginIsBegunOn(text, i, newI);
    BeginIsBegunOn(text, j, newJ);
    hide Begin, Split, Join, Closed, OnlyContext, Exchanged, BothReplaced, CommitAll, BegunOn;
    FarSessionsCommute(text, Begin(text, i).value.(text := newI), Begin(text, j).value.(text := newJ));
  }
}
