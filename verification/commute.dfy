/** Writers on different sentences do not disturb each other: whatever texts their sessions
    began on, every order of their commits stores the same document, with every edit in it.

    The proof keeps the file as blocks: one block per sentence of the text before the first
    commit, holding that sentence or the parts that replaced it. */
module Commute {
  import opened Text
  import opened Merge
  import opened Wrappers

  function CommitAll(text: string, order: seq<Session>): Option<string>
    decreases |order|
  {
    if order == [] then Some(text)
    else
      var next := Commit(text, order[0]);
      if next.None? then None else CommitAll(next.value, order[1..])
  }

  /** The new text may stand before other sentences: it is empty or its last part is delimited. */
  predicate Closed(text: string) {
    var parts := Split(text);
    parts == [] || EndsDelim(parts[|parts| - 1])
  }

  /** Where a sentence stands first. */
  function Place(start: seq<string>, x: string): (k: nat)
    requires x in start
    ensures k < |start| && start[k] == x && x !in start[..k]
  {
    if start[0] == x then 0 else
      var k := Place(start[1..], x) + 1;
      assert start[..k] == [start[0]] + start[1..][..k - 1];
      k
  }

  predicate Unique(start: seq<string>, index: nat)
    requires index < |start|
  {
    forall k :: 0 <= k < |start| && start[k] == start[index] ==> k == index
  }

  /** One session's share of the hypothesis: its sentence occurs once, its text can be followed.
      Nothing is said about the text that the session began on, or about its index there. */
  predicate Independent(start: seq<string>, s: Session) {
    && s.baseline in start && Unique(start, Place(start, s.baseline))
    && (Closed(s.text) || Place(start, s.baseline) == |start| - 1)
  }

  /** Sessions on different sentences, none of which writes another one's sentence. */
  predicate Compatible(start: seq<string>, order: seq<Session>) {
    && (forall a :: 0 <= a < |order| ==> Independent(start, order[a]))
    && (forall a, b :: 0 <= a < |order| && 0 <= b < |order| && a != b ==>
          order[a].baseline != order[b].baseline && order[a].baseline !in Split(order[b].text))
  }

  // ------------------------------------------------------------------- blocks

  function Flat(blocks: seq<seq<string>>): seq<string> {
    if blocks == [] then [] else blocks[0] + Flat(blocks[1..])
  }

  lemma {:induction false} FlatConcat(xs: seq<seq<string>>, ys: seq<seq<string>>)
    ensures Flat(xs + ys) == Flat(xs) + Flat(ys)
  {
    if xs == [] {
      assert xs + ys == ys;
    } else {
      assert (xs + ys)[1..] == xs[1..] + ys;
      FlatConcat(xs[1..], ys);
    }
  }

  lemma {:induction false} FlatAround(blocks: seq<seq<string>>, i: nat, block: seq<string>)
    requires i < |blocks|
    ensures Flat(blocks[i := block]) == Flat(blocks[..i]) + block + Flat(blocks[i + 1..])
  {
    var rest := [block] + blocks[i + 1..];
    assert blocks[i := block] == blocks[..i] + rest;
    FlatConcat(blocks[..i], rest);
    assert rest[1..] == blocks[i + 1..];
  }

  lemma {:induction false} FlatMember(blocks: seq<seq<string>>, x: string)
    requires forall k :: 0 <= k < |blocks| ==> x !in blocks[k]
    ensures x !in Flat(blocks)
  {
    if blocks != [] {
      FlatMember(blocks[1..], x);
    }
  }

  function Singletons(start: seq<string>): seq<seq<string>> {
    seq(|start|, k requires 0 <= k < |start| => [start[k]])
  }

  lemma {:induction false} FlatSingletons(start: seq<string>)
    ensures Flat(Singletons(start)) == start
  {
    if start != [] {
      assert Singletons(start)[1..] == Singletons(start[1..]);
      FlatSingletons(start[1..]);
      assert start == [start[0]] + start[1..];
    }
  }

  /** A block whose sentences can be followed by more, unless it is the last block. */
  predicate BlockOk(block: seq<string>, last: bool) {
    SentenceList(block) && (last || block == [] || EndsDelim(block[|block| - 1]))
  }

  predicate BlocksOk(blocks: seq<seq<string>>) {
    forall k :: 0 <= k < |blocks| ==> BlockOk(blocks[k], k == |blocks| - 1)
  }

  lemma {:induction false} FlatIsSentenceList(blocks: seq<seq<string>>)
    requires BlocksOk(blocks)
    ensures SentenceList(Flat(blocks))
  {
    if |blocks| == 1 {
      assert Flat(blocks) == blocks[0] + [];
      assert BlockOk(blocks[0], true);
    } else if |blocks| > 1 {
      var first, rest := blocks[0], blocks[1..];
      forall k | 0 <= k < |rest| ensures BlockOk(rest[k], k == |rest| - 1) {
        assert BlockOk(blocks[k + 1], k + 1 == |blocks| - 1);
      }
      FlatIsSentenceList(rest);
      assert BlockOk(first, false);
    }
  }

  // ------------------------------------------------------------- one commit step

  /** Where the baseline stands exactly once, it is found, whatever the scores are. */
  lemma {:induction false} LocateUnique(latest: seq<string>, s: Session, k: nat)
    requires IsCandidate(latest, s, k)
    requires s.baseline !in latest[..k] && s.baseline !in latest[k + 1..]
    ensures Locate(latest, s, |latest|) == k
  {
    assert latest[..|latest|] == latest;
    forall j | 0 <= j < |latest| && j != k ensures latest[j] != s.baseline {
      if j < k {
        assert latest[j] == latest[..k][j];
      } else {
        assert latest[j] == latest[k + 1..][j - k - 1];
      }
    }
  }

  /** The session's sentence stands in block `i`, alone, and nowhere else. */
  ghost predicate OnlyIn(blocks: seq<seq<string>>, i: nat, s: Session) {
    && i < |blocks| && blocks[i] == [s.baseline]
    && forall k :: 0 <= k < |blocks| && k != i ==> s.baseline !in blocks[k]
  }

  /** The session's sentence is found right behind the blocks before its own. */
  lemma {:induction false} BlockLocated(blocks: seq<seq<string>>, i: nat, s: Session)
    requires OnlyIn(blocks, i, s)
    ensures var latest, before, after := Flat(blocks), Flat(blocks[..i]), Flat(blocks[i + 1..]);
            && latest == before + [s.baseline] + after
            && Locate(latest, s, |latest|) == |before|
  {
    var latest := Flat(blocks);
    var before, after := Flat(blocks[..i]), Flat(blocks[i + 1..]);
    assert blocks[i := [s.baseline]] == blocks;
    FlatAround(blocks, i, [s.baseline]);
    FlatMember(blocks[..i], s.baseline);
    FlatMember(blocks[i + 1..], s.baseline);
    assert latest[..|before|] == before && latest[|before| + 1..] == after;
    LocateUnique(latest, s, |before|);
  }

  lemma {:induction false} BlockReplaced(text: string, blocks: seq<seq<string>>, i: nat, s: Session)
    requires Split(text) == Flat(blocks) && OnlyIn(blocks, i, s) && s.baseline != ""
    ensures Commit(text, s) == Some(Join(Flat(blocks[i := Split(s.text)])))
  {
    BlockLocated(blocks, i, s);
    FlatAround(blocks, i, Split(s.text));
    hide OnlyIn, Locate, Flat;
    var before, after := Flat(blocks[..i]), Flat(blocks[i + 1..]);
    var latest, k := Flat(blocks), |before|;
    assert Splice(latest, k, 1, Split(s.text)) == before + Split(s.text) + after;
  }

  lemma {:induction false} BlocksStayOk(blocks: seq<seq<string>>, i: nat, text: string)
    requires BlocksOk(blocks) && i < |blocks| && (Closed(text) || i == |blocks| - 1)
    ensures BlocksOk(blocks[i := Split(text)])
  {
    SplitShape(text);
  }

  /** A commit replaces its own block and keeps the file in block form. */
  lemma {:induction false} CommitStep(text: string, blocks: seq<seq<string>>, i: nat, s: Session)
    requires BlocksOk(blocks) && Split(text) == Flat(blocks)
    requires OnlyIn(blocks, i, s) && s.baseline != ""
    requires Closed(s.text) || i == |blocks| - 1
    ensures var blocks' := blocks[i := Split(s.text)];
            && BlocksOk(blocks')
            && Commit(text, s) == Some(Join(Flat(blocks')))
            && Split(Join(Flat(blocks'))) == Flat(blocks')
  {
    assert i < |blocks|;
    hide BlocksOk, OnlyIn, Closed, Commit, Flat, Split, Fuse;
    var blocks' := blocks[i := Split(s.text)];
    BlockReplaced(text, blocks, i, s);
    BlocksStayOk(blocks, i, s.text);
    FlatIsSentenceList(blocks');
    SplitJoin(Flat(blocks'));
    FuseKeepsSentences(Flat(blocks'));
  }

  // ------------------------------------------------------------------ any order

  ghost predicate OneEach(start: seq<string>, order: seq<Session>) {
    && (forall a :: 0 <= a < |order| ==> order[a].baseline in start)
    && (forall a, b :: 0 <= a < b < |order| ==> order[a].baseline != order[b].baseline)
  }

  /** The block form after all of `order` committed. */
  function Edited(start: seq<string>, blocks: seq<seq<string>>, order: seq<Session>): seq<seq<string>>
    requires |blocks| == |start| && forall a :: 0 <= a < |order| ==> order[a].baseline in start
    decreases |order|
  {
    if order == [] then blocks
    else Edited(start, blocks[Place(start, order[0].baseline) := Split(order[0].text)], order[1..])
  }

  lemma {:induction false} CompatibleRest(start: seq<string>, order: seq<Session>)
    requires Compatible(start, order) && order != []
    ensures Compatible(start, order[1..])
  {
    var rest := order[1..];
    assert forall a :: 0 <= a < |rest| ==> rest[a] == order[a + 1];
  }

  lemma {:induction false} CommitAllRun(start: seq<string>, text: string, blocks: seq<seq<string>>, order: seq<Session>)
    requires Compatible(start, order) && |blocks| == |start|
    requires BlocksOk(blocks) && Split(text) == Flat(blocks)
    requires Segments(start)
    requires forall a :: 0 <= a < |order| ==> OnlyIn(blocks, Place(start, order[a].baseline), order[a])
    ensures order != [] ==> CommitAll(text, order) == Some(Join(Flat(Edited(start, blocks, order))))
    decreases |order|
  {
    if order != [] {
      var s, rest := order[0], order[1..];
      assert Independent(start, s);
      var i := Place(start, s.baseline);
      CommitStep(text, blocks, i, s);
      var blocks', text' := blocks[i := Split(s.text)], Commit(text, s).value;
      CompatibleRest(start, order);
      forall a | 0 <= a < |rest| ensures OnlyIn(blocks', Place(start, rest[a].baseline), rest[a]) {
        assert rest[a] == order[a + 1];
        OtherBlockStays(blocks, i, Place(start, rest[a].baseline), s, rest[a]);
      }
      CommitAllRun(start, text', blocks', rest);
    }
  }

  lemma {:induction false} OtherBlockStays(blocks: seq<seq<string>>, i: nat, j: nat, s: Session, r: Session)
    requires OnlyIn(blocks, i, s) && OnlyIn(blocks, j, r)
    requires s.baseline != r.baseline && r.baseline !in Split(s.text)
    ensures OnlyIn(blocks[i := Split(s.text)], j, r)
  {
    assert [s.baseline][0] != [r.baseline][0];
  }

  /** What sentence `k` has become: its writer's parts, or itself. */
  ghost predicate HoldsEdit(start: seq<string>, order: seq<Session>, k: nat, block: seq<string>)
    requires k < |start|
  {
    && (forall a :: 0 <= a < |order| && order[a].baseline == start[k] ==> block == Split(order[a].text))
    && ((forall a :: 0 <= a < |order| ==> order[a].baseline != start[k]) ==> block == [start[k]])
  }

  lemma {:induction false} EditedBlock(start: seq<string>, blocks: seq<seq<string>>, order: seq<Session>, k: nat)
    requires k < |start| == |blocks|
    requires OneEach(start, order)
    ensures |Edited(start, blocks, order)| == |blocks|
    ensures forall a :: 0 <= a < |order| && Place(start, order[a].baseline) == k ==>
              Edited(start, blocks, order)[k] == Split(order[a].text)
    ensures (forall a :: 0 <= a < |order| ==> Place(start, order[a].baseline) != k) ==>
              Edited(start, blocks, order)[k] == blocks[k]
    decreases |order|
  {
    if order != [] {
      var blocks' := blocks[Place(start, order[0].baseline) := Split(order[0].text)];
      var rest := order[1..];
      assert forall a :: 0 <= a < |rest| ==> rest[a] == order[a + 1];
      EditedBlock(start, blocks', rest, k);
      forall a | 0 <= a < |order| && Place(start, order[a].baseline) == k
        ensures Edited(start, blocks, order)[k] == Split(order[a].text)
      {
        if a > 0 {
          assert rest[a - 1] == order[a];
        }
      }
    }
  }

  /** The document after a run: sentence by sentence the writer's parts or the old sentence. */
  lemma {:induction false} CommitAllShape(text: string, order: seq<Session>) returns (blocks: seq<seq<string>>)
    requires Compatible(Split(text), order) && order != []
    ensures |blocks| == |Split(text)|
    ensures forall k :: 0 <= k < |blocks| ==> HoldsEdit(Split(text), order, k, blocks[k])
    ensures CommitAll(text, order) == Some(Join(Flat(blocks)))
  {
    var start, init := Split(text), Singletons(Split(text));
    SplitShape(text);
    FlatSingletons(start);
    SingletonsOk(start);
    assert Independent(start, order[0]);
    forall a | 0 <= a < |order| ensures OnlyIn(init, Place(start, order[a].baseline), order[a]) {
      assert Independent(start, order[a]);
    }
    assert forall a :: 0 <= a < |order| ==> Independent(start, order[a]);
    hide Split, Flat, CommitAll, HoldsEdit, Join, OnlyIn, BlocksOk, Singletons;
    CommitAllRun(start, text, init, order);
    blocks := Edited(start, init, order);
    forall k | 0 <= k < |start| ensures |blocks| == |start| && HoldsEdit(start, order, k, blocks[k]) {
      EditedHolds(start, order, k);
    }
    EditedHolds(start, order, 0);
  }

  lemma {:induction false} SingletonsOk(start: seq<string>)
    requires SentenceList(start)
    ensures BlocksOk(Singletons(start)) && |Singletons(start)| == |start|
  {
  }

  lemma {:induction false} EditedHolds(start: seq<string>, order: seq<Session>, k: nat)
    requires Compatible(start, order) && k < |start|
    ensures |Edited(start, Singletons(start), order)| == |start|
    ensures HoldsEdit(start, order, k, Edited(start, Singletons(start), order)[k])
  {
    EditedBlock(start, Singletons(start), order, k);
    forall a | 0 <= a < |order| ensures Place(start, order[a].baseline) == k <==> order[a].baseline == start[k] {
      assert Independent(start, order[a]);
    }
  }

  lemma {:induction false} TwiceIn<T>(items: seq<T>, a: nat, b: nat)
    requires a < b < |items| && items[a] == items[b]
    ensures multiset(items)[items[a]] >= 2
  {
    assert items == items[..b] + items[b..];
    assert items[..b][a] in multiset(items[..b]);
    assert items[b..][0] in multiset(items[b..]);
  }

  lemma {:induction false} OnceIn<T>(items: seq<T>, x: T)
    requires forall a, b :: 0 <= a < b < |items| ==> items[a] != items[b]
    ensures multiset(items)[x] <= 1
  {
    if items != [] {
      var rest := items[1..];
      assert items == [items[0]] + rest;
      if items[0] == x {
        forall a | 0 <= a < |rest| ensures rest[a] != x {
          assert rest[a] == items[a + 1];
        }
        assert x !in multiset(rest);
      }
      OnceIn(rest, x);
    }
  }

  /** Compatibility speaks of the set of sessions only. */
  lemma {:induction false} CompatibleInAnyOrder(start: seq<string>, order: seq<Session>, other: seq<Session>)
    requires Compatible(start, order) && multiset(order) == multiset(other)
    ensures Compatible(start, other)
  {
    forall a | 0 <= a < |other| ensures Independent(start, other[a]) {
      assert other[a] in multiset(order);
    }
    forall a, b | 0 <= a < |other| && 0 <= b < |other| && a != b
      ensures other[a].baseline != other[b].baseline && other[a].baseline !in Split(other[b].text)
    {
      assert other[a] in multiset(order) && other[b] in multiset(order);
      var c :| 0 <= c < |order| && order[c] == other[a];
      var d :| 0 <= d < |order| && order[d] == other[b];
      if c == d {
        OnceIn(order, order[c]);
        TwiceIn(other, if a < b then a else b, if a < b then b else a);
      }
    }
  }

  /** Any two orders of the same sessions store the same document. */
  lemma {:induction false} CommitsCommute(text: string, order: seq<Session>, other: seq<Session>)
    requires Compatible(Split(text), order)
    requires multiset(order) == multiset(other)
    ensures CommitAll(text, order) == CommitAll(text, other)
    ensures CommitAll(text, order).Some?
  {
    var start := Split(text);
    CompatibleInAnyOrder(start, order, other);
    assert |order| == |multiset(order)| == |multiset(other)| == |other|;
    if order != [] {
      var blocks := CommitAllShape(text, order);
      var blocks' := CommitAllShape(text, other);
      forall k | 0 <= k < |start| ensures blocks[k] == blocks'[k] {
        assert HoldsEdit(start, order, k, blocks[k]) && HoldsEdit(start, other, k, blocks'[k]);
        if a :| 0 <= a < |order| && order[a].baseline == start[k] {
          assert order[a] in multiset(other);
          var b :| 0 <= b < |other| && other[b] == order[a];
        } else {
          forall b | 0 <= b < |other| ensures other[b].baseline != start[k] {
            assert other[b] in multiset(order);
          }
        }
      }
      assert blocks == blocks';
    }
  }

  /** Sentences `i` and `j` replaced by the parts `a` and `b`. */
  function BothReplaced(start: seq<string>, i: nat, j: nat, a: seq<string>, b: seq<string>): seq<string>
    requires i < j < |start|
  {
    start[..i] + a + start[i + 1..j] + b + start[j + 1..]
  }

  lemma {:induction false} PairIsCompatible(start: seq<string>, s: Session, r: Session, i: nat, j: nat)
    requires i < |start| && j < |start| && i != j && Unique(start, i) && Unique(start, j)
    requires s.baseline == start[i] && r.baseline == start[j]
    requires s.baseline !in Split(r.text) && r.baseline !in Split(s.text)
    requires (Closed(s.text) || i == |start| - 1) && (Closed(r.text) || j == |start| - 1)
    ensures Compatible(start, [s, r]) && Compatible(start, [r, s]) && multiset([s, r]) == multiset([r, s])
  {
    hide Closed, Split;
    assert Place(start, start[i]) == i && Place(start, start[j]) == j;
    assert Independent(start, s) && Independent(start, r);
  }

  /** Two writers who began on the same text at different sentences. */
  lemma {:induction false} TwoWritersCommute(text: string, i: nat, j: nat, newI: string, newJ: string)
    requires i < |Split(text)| && j < |Split(text)| && i != j
    requires Unique(Split(text), i) && Unique(Split(text), j)
    requires Split(text)[i] !in Split(newJ) && Split(text)[j] !in Split(newI)
    requires Closed(newI) || i == |Split(text)| - 1
    requires Closed(newJ) || j == |Split(text)| - 1
    ensures var s := Begin(text, i).value.(text := newI);
            var r := Begin(text, j).value.(text := newJ);
            && Commit(text, s).Some? && Commit(text, r).Some?
            && Commit(Commit(text, s).value, r).Some?
            && Commit(Commit(text, s).value, r) == Commit(Commit(text, r).value, s)
            && Commit(Commit(text, s).value, r).value
               == Join(if i < j then BothReplaced(Split(text), i, j, Split(newI), Split(newJ))
                       else BothReplaced(Split(text), j, i, Split(newJ), Split(newI)))
  {
    var start := Split(text);
    var s, r := Session(i, start, start[i], newI), Session(j, start, start[j], newJ);
    assert Begin(text, i).value.(text := newI) == s && Begin(text, j).value.(text := newJ) == r;
    hide Begin, Split, Join, Closed, Unique, Compatible, CommitAll, Commit, Flat, HoldsEdit, BothReplaced;
    PairIsCompatible(start, s, r, i, j);
    CommitsCommute(text, [s, r], [r, s]);
    RunOfTwo(text, s, r);
    RunOfTwo(text, r, s);
    var blocks := CommitAllShape(text, [s, r]);
    TwoEdits(start, [s, r], blocks, i, j);
  }

  lemma {:induction false} RunOfTwo(text: string, s: Session, r: Session)
    ensures CommitAll(text, [s, r]) == if Commit(text, s).None? then None else Commit(Commit(text, s).value, r)
  {
    assert [s, r][1..] == [r] && [r][1..] == [];
    var next := Commit(text, s);
    if next.Some? {
      assert CommitAll(text, [s, r]) == CommitAll(next.value, [r]);
      var last := Commit(next.value, r);
      assert last.Some? ==> CommitAll(last.value, []) == last;
    }
  }

  lemma {:induction false} FlatAroundTwo(blocks: seq<seq<string>>, lo: nat, hi: nat)
    requires lo < hi < |blocks|
    ensures Flat(blocks) == Flat(blocks[..lo]) + blocks[lo] + Flat(blocks[lo + 1..hi]) + blocks[hi] + Flat(blocks[hi + 1..])
  {
    hide Flat;
    var front := blocks[..hi];
    assert blocks[hi := blocks[hi]] == blocks && front[lo := blocks[lo]] == front;
    FlatAround(blocks, hi, blocks[hi]);
    FlatAround(front, lo, blocks[lo]);
    assert front[..lo] == blocks[..lo] && front[lo + 1..] == blocks[lo + 1..hi];
  }

  lemma {:induction false} FlatUnedited(start: seq<string>, blocks: seq<seq<string>>, from: nat, to: nat)
    requires from <= to <= |start| == |blocks|
    requires forall k :: from <= k < to ==> blocks[k] == [start[k]]
    ensures Flat(blocks[from..to]) == start[from..to]
  {
    assert blocks[from..to] == Singletons(start[from..to]);
    FlatSingletons(start[from..to]);
  }

  lemma {:induction false} FlatBoth(start: seq<string>, blocks: seq<seq<string>>, lo: nat, hi: nat)
    requires lo < hi < |start| == |blocks|
    requires forall k :: 0 <= k < |blocks| && k != lo && k != hi ==> blocks[k] == [start[k]]
    ensures Flat(blocks) == BothReplaced(start, lo, hi, blocks[lo], blocks[hi])
  {
    FlatAroundTwo(blocks, lo, hi);
    FlatUnedited(start, blocks, 0, lo);
    FlatUnedited(start, blocks, lo + 1, hi);
    FlatUnedited(start, blocks, hi + 1, |start|);
    hide Flat;
    assert blocks[..lo] == blocks[0..lo] && start[..lo] == start[0..lo];
    assert blocks[hi + 1..] == blocks[hi + 1..|start|] && start[hi + 1..] == start[hi + 1..|start|];
  }

  lemma {:induction false} TwoEdits(start: seq<string>, order: seq<Session>, blocks: seq<seq<string>>, i: nat, j: nat)
    requires |order| == 2 && i < |start| && j < |start| == |blocks| && i != j
    requires order[0].baseline == start[i] && order[1].baseline == start[j] && Unique(start, i) && Unique(start, j)
    requires forall k :: 0 <= k < |blocks| ==> HoldsEdit(start, order, k, blocks[k])
    ensures var a, b := Split(order[0].text), Split(order[1].text);
            Flat(blocks) == if i < j then BothReplaced(start, i, j, a, b) else BothReplaced(start, j, i, b, a)
  {
    hide Flat, Split, BothReplaced;
    assert HoldsEdit(start, order, i, blocks[i]) && HoldsEdit(start, order, j, blocks[j]);
    forall k | 0 <= k < |blocks| && k != i && k != j ensures blocks[k] == [start[k]] {
      assert HoldsEdit(start, order, k, blocks[k]);
    }
    FlatBoth(start, blocks, if i < j then i else j, if i < j then j else i);
  }

  // ------------------------------------------------------ why sentences must be unique

  /** The session on the first of three equal sentences stays there. */
  lemma {:induction false} FirstStays(a: string, d: string, s: Session)
    requires a != d && s.index == 0 && s.sentences == [a, a, a] && s.baseline == a
    ensures Locate([a, d, a], s, 3) == 0
  {
    var latest := [a, d, a];
    assert latest[..3] == latest;
    assert IsCandidate(latest, s, 0) && !IsCandidate(latest, s, 1);
    assert MatchesFrom(latest, s.sentences, 2, 0, 1, 1) == 0 && MatchesFrom(latest, s.sentences, 0, 0, 1, 1) == 0;
    assert MatchesFrom(latest, s.sentences, 2, 0, -1, 1) == 0 && MatchesFrom(latest, s.sentences, 0, 0, -1, 1) == 0;
    assert Score(latest, s, 0) > Score(latest, s, 2);
  }

  /** The one on the second is drawn to the last when the first has become two. */
  lemma {:induction false} SecondMoves(a: string, b: string, c: string, r: Session)
    requires a != b && a != c && r.index == 1 && r.sentences == [a, a, a] && r.baseline == a
    ensures Locate([b, c, a, a], r, 4) == 3
  {
    var latest := [b, c, a, a];
    assert latest[..4] == latest;
    assert IsCandidate(latest, r, 3) && !IsCandidate(latest, r, 0) && !IsCandidate(latest, r, 1);
    assert MatchesFrom(latest, r.sentences, 3, 1, 1, 1) == 0;
    assert MatchesFrom(latest, r.sentences, 3, 1, -1, 2) == 0;
    assert MatchesFrom(latest, r.sentences, 3, 1, -1, 1) == 1;
    assert MatchesFrom(latest, r.sentences, 2, 1, 1, 2) == 0;
    assert MatchesFrom(latest, r.sentences, 2, 1, 1, 1) == 1;
    assert MatchesFrom(latest, r.sentences, 2, 1, -1, 1) == 0;
    assert Score(latest, r, 3) > Score(latest, r, 2);
  }

  /** Without uniqueness the order can matter: of three equal sentences one writer makes the
      first one into two, another one replaces the second. Whatever the sentences are, the
      two orders store different documents, although neither commit conflicts. */
  lemma {:induction false} RepeatedSentencesDoNotCommute(a: string, b: string, c: string, d: string)
    returns (text: string, s: Session, r: Session)
    requires Sentence(a) && Sentence(b) && Sentence(c) && Sentence(d)
    requires a != b && a != c && a != d
    ensures Split(text) == [a, a, a]
    ensures Begin(text, 0) == Some(s.(text := a)) && s.text == Join([b, c])
    ensures Begin(text, 1) == Some(r.(text := a)) && r.text == Join([d])
    ensures CommitAll(text, [s, r]) == Some(Join([b, c, a, d]))
    ensures CommitAll(text, [r, s]) == Some(Join([b, c, d, a]))
    ensures Join([b, c, a, d]) != Join([b, c, d, a])
  {
    hide Split, Join, Segment, EndsDelim, CommitAll;
    text := Join([a, a, a]);
    JoinedSentences([a, a, a]);
    s := Session(0, [a, a, a], a, Join([b, c]));
    r := Session(1, [a, a, a], a, Join([d]));
    FirstThenSecond(text, s, r, a, b, c, d);
    SecondThenFirst(text, s, r, a, b, c, d);
    JoinedSentences([b, c, a, d]);
    JoinedSentences([b, c, d, a]);
    assert [b, c, a, d][2] != [b, c, d, a][2];
  }

  lemma {:induction false} ThreeReplaced(a: string, b: string, c: string, d: string)
    ensures [a, a, a][..0] + [b, c] + [a, a, a][1..] == [b, c, a, a]
    ensures [b, c, a, a][..3] + [d] + [b, c, a, a][4..] == [b, c, a, d]
    ensures [a, a, a][..1] + [d] + [a, a, a][2..] == [a, d, a]
    ensures [a, d, a][..0] + [b, c] + [a, d, a][1..] == [b, c, d, a]
  {
  }

  lemma {:induction false} FirstThenSecond(text: string, s: Session, r: Session, a: string, b: string, c: string, d: string)
    requires Sentence(a) && Sentence(b) && Sentence(c) && Sentence(d) && a != b && a != c
    requires Split(text) == [a, a, a]
    requires s == Session(0, [a, a, a], a, Join([b, c])) && r == Session(1, [a, a, a], a, Join([d]))
    ensures CommitAll(text, [s, r]) == Some(Join([b, c, a, d]))
  {
    assert a != "";
    hide Split, Join, Locate, Sentence, CommitAll;
    JoinedSentences([b, c]);
    JoinedSentences([d]);
    JoinedSentences([b, c, a, a]);
    RelocatesToItself(s);
    SecondMoves(a, b, c, r);
    ThreeReplaced(a, b, c, d);
    RunOnLists(text, s, r, [a, a, a], 0, 3);
  }

  lemma {:induction false} SecondThenFirst(text: string, s: Session, r: Session, a: string, b: string, c: string, d: string)
    requires Sentence(a) && Sentence(b) && Sentence(c) && Sentence(d) && a != d
    requires Split(text) == [a, a, a]
    requires s == Session(0, [a, a, a], a, Join([b, c])) && r == Session(1, [a, a, a], a, Join([d]))
    ensures CommitAll(text, [r, s]) == Some(Join([b, c, d, a]))
  {
    assert a != "";
    hide Split, Join, Locate, Sentence, CommitAll;
    JoinedSentences([b, c]);
    JoinedSentences([d]);
    JoinedSentences([a, d, a]);
    RelocatesToItself(r);
    FirstStays(a, d, s);
    ThreeReplaced(a, b, c, d);
    RunOnLists(text, r, s, [a, a, a], 1, 0);
  }

  lemma {:induction false} CommitAt(text: string, s: Session, k: nat)
    requires s.baseline != "" && k < |Split(text)| && Locate(Split(text), s, |Split(text)|) == k
    ensures Commit(text, s) == Some(Join(Split(text)[..k] + Split(s.text) + Split(text)[k + 1..]))
  {
  }

  /** Two commits in a row, once it is known where each one finds its sentence. */
  lemma {:induction false} RunOnLists(text: string, s: Session, r: Session, latest: seq<string>, k: nat, j: nat)
    requires Split(text) == latest && s.baseline != "" && r.baseline != ""
    requires k < |latest| && Locate(latest, s, |latest|) == k
    requires var next := latest[..k] + Split(s.text) + latest[k + 1..];
             Split(Join(next)) == next && j < |next| && Locate(next, r, |next|) == j
    ensures var next := latest[..k] + Split(s.text) + latest[k + 1..];
            CommitAll(text, [s, r]) == Some(Join(next[..j] + Split(r.text) + next[j + 1..]))
  {
    hide Split, Join, Locate, Commit, CommitAll;
    CommitAt(text, s, k);
    CommitAt(Commit(text, s).value, r, j);
    RunOfTwo(text, s, r);
  }

  // ------------------------------------------------- conflicts and appending sessions

  /** Two sessions that hold the same sentence: once the first has replaced it by text that
      does not contain it, the second one conflicts and stores nothing. */
  lemma {:induction false} SecondWriterConflicts(text: string, s: Session, r: Session, k: nat)
    requires k < |Split(text)| && Unique(Split(text), k)
    requires s.baseline == r.baseline == Split(text)[k]
    requires s.baseline !in Split(s.text)
    requires Closed(s.text) || k == |Split(text)| - 1
    ensures Commit(text, s).Some? && Commit(Commit(text, s).value, r) == None
  {
    ReplaceUnique(text, s, k);
    SplitShape(text);
    var latest, b := Split(text), s.baseline;
    var merged := latest[..k] + Split(s.text) + latest[k + 1..];
    assert merged[..|merged|] == merged;
    assert b !in latest[..k] && b !in latest[k + 1..];
  }

  lemma {:induction false} ReplacedResplits(text: string, k: nat, newText: string)
    requires k < |Split(text)| && (Closed(newText) || k == |Split(text)| - 1)
    ensures var next := Split(text)[..k] + Split(newText) + Split(text)[k + 1..];
            Split(Join(next)) == next
  {
    SplitShape(text);
    SplitShape(newText);
    var next := Split(text)[..k] + Split(newText) + Split(text)[k + 1..];
    assert SentenceList(next);
    hide Split, Join, Segment;
    SplitJoin(next);
    FuseKeepsSentences(next);
  }

  lemma {:induction false} UniqueIsLocated(latest: seq<string>, s: Session, k: nat)
    requires k < |latest| && Unique(latest, k) && s.baseline == latest[k]
    ensures Locate(latest, s, |latest|) == k
  {
    LocateUnique(latest, s, k);
  }

  lemma {:induction false} ReplaceUnique(text: string, s: Session, k: nat)
    requires k < |Split(text)| && Unique(Split(text), k)
    requires s.baseline == Split(text)[k]
    requires Closed(s.text) || k == |Split(text)| - 1
    ensures var merged := Split(text)[..k] + Split(s.text) + Split(text)[k + 1..];
            Commit(text, s) == Some(Join(merged)) && Split(Join(merged)) == merged
  {
    assert s.baseline != "" by { SplitShape(text); }
    hide Split, Join, Closed, Unique, Locate, Commit;
    UniqueIsLocated(Split(text), s, k);
    CommitAt(text, s, k);
    ReplacedResplits(text, k, s.text);
  }

  lemma {:induction false} ReplaceThenAppend(text: string, i: nat, r: Session, a: Session)
    requires i < |Split(text)| && Unique(Split(text), i) && r.baseline == Split(text)[i]
    requires Closed(r.text) && a.baseline == ""
    ensures var replaced := Split(text)[..i] + Split(r.text) + Split(text)[i + 1..];
            var n := Min(a.index, |replaced|);
            && Commit(text, r).Some?
            && Commit(Commit(text, r).value, a) == Some(Join(replaced[..n] + Split(a.text) + replaced[n..]))
  {
    ReplaceUnique(text, r, i);
  }

  lemma {:induction false} AppendGrows(text: string, a: Session)
    requires Closed(text) && a.baseline == "" && a.index == |Split(text)|
    ensures var grown := Split(text) + Split(a.text);
            Commit(text, a) == Some(Join(grown)) && Split(Join(grown)) == grown
  {
    var start, tail := Split(text), Split(a.text);
    SplitShape(text);
    SplitShape(a.text);
    var grown := start + tail;
    assert Splice(start, |start|, 0, tail) == grown;
    SplitJoin(grown);
    FuseKeepsSentences(grown);
  }

  lemma {:induction false} AppendThenReplace(text: string, i: nat, r: Session, a: Session)
    requires i < |Split(text)| && Unique(Split(text), i) && r.baseline == Split(text)[i]
    requires r.baseline !in Split(a.text) && Closed(text)
    requires a.baseline == "" && a.index == |Split(text)|
    ensures var replaced := Split(text)[..i] + Split(r.text) + Split(text)[i + 1..];
            Commit(text, a).Some? && Commit(Commit(text, a).value, r) == Some(Join(replaced + Split(a.text)))
  {
    var start, tail := Split(text), Split(a.text);
    AppendGrows(text, a);
    assert r.baseline != "" by { SplitShape(text); }
    var grown := start + tail;
    assert grown[..i] == start[..i];
    assert grown[i + 1..] == start[i + 1..] + tail;
    assert r.baseline !in grown[..i] && r.baseline !in grown[i + 1..];
    LocateUnique(grown, r, i);
    assert Splice(grown, i, 1, Split(r.text)) == start[..i] + Split(r.text) + start[i + 1..] + tail;
  }

  lemma {:induction false} SamePrefix<T>(p: seq<T>, x: seq<T>, y: seq<T>)
    ensures p + x == p + y <==> x == y
  {
    assert (p + x)[|p|..] == x && (p + y)[|p|..] == y;
  }

  lemma {:induction false} SwapTails<T>(s: seq<T>, n: nat, x: seq<T>)
    requires n <= |s|
    ensures s + x == s[..n] + x + s[n..] <==> s[n..] + x == x + s[n..]
  {
    assert s + x == s[..n] + (s[n..] + x);
    assert s[..n] + x + s[n..] == s[..n] + (x + s[n..]);
    SamePrefix(s[..n], s[n..] + x, x + s[n..]);
  }

  /** Two lists of lines that interleave differently are stored differently. */
  lemma {:induction false} SwappedTailsStore(s: seq<string>, n: nat, x: seq<string>)
    requires n <= |s| && Segments(s) && Segments(x)
    ensures Join(s + x) == Join(s[..n] + x + s[n..]) <==> s[n..] + x == x + s[n..]
  {
    hide Join, Segment;
    SwapTails(s, n, x);
    assert Segments(s + x) && Segments(s[..n] + x + s[n..]);
    if Join(s + x) == Join(s[..n] + x + s[n..]) {
      JoinInjective(s + x, s[..n] + x + s[n..]);
    }
  }

  /** A session that appends keeps the index it began with. Beside a writer who replaces
      sentence `i`, the two orders of the commits store the same document exactly when the
      appended sentences and the ones pushed past the old end can change places. */
  lemma {:induction false} AppendBesideReplace(text: string, i: nat, newText: string, added: string)
    requires i < |Split(text)| && Unique(Split(text), i) && Split(text)[i] !in Split(added)
    requires Closed(text) && Closed(newText)
    ensures var start := Split(text);
            var a := Begin(text, |start|).value.(text := added);
            var r := Begin(text, i).value.(text := newText);
            var replaced := start[..i] + Split(newText) + start[i + 1..];
            var pushed := replaced[Min(|start|, |replaced|)..];
            && Commit(text, a).Some? && Commit(text, r).Some?
            && Commit(Commit(text, a).value, r) == Some(Join(replaced + Split(added)))
            && Commit(Commit(text, r).value, a)
               == Some(Join(replaced[..Min(|start|, |replaced|)] + Split(added) + pushed))
            && (Commit(Commit(text, a).value, r) == Commit(Commit(text, r).value, a)
                <==> pushed + Split(added) == Split(added) + pushed)
  {
    hide Join, Closed, Unique, Segments, Commit;
    var start := Split(text);
    var a := Session(|start|, start, "", added);
    var r := Session(i, start, start[i], newText);
    assert Begin(text, |start|).value.(text := added) == a && Begin(text, i).value.(text := newText) == r;
    hide Begin, Split;
    var replaced := start[..i] + Split(newText) + start[i + 1..];
    ReplaceThenAppend(text, i, r, a);
    AppendThenReplace(text, i, r, a);
    SplicedSegments(text, i, newText);
    SplitShape(added);
    SwappedTailsStore(replaced, Min(|start|, |replaced|), Split(added));
  }

  lemma {:induction false} SplicedSegments(text: string, i: nat, newText: string)
    requires i < |Split(text)|
    ensures Segments(Split(text)[..i] + Split(newText) + Split(text)[i + 1..])
  {
    SplitShape(text);
    SplitShape(newText);
  }
}
