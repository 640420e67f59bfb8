/** Round-robin choice of a storage server: a cursor that moves behind the server it picked. */
module RoundRobin {

  /** `exclude` is -1 when no server is left out. */
  predicate Usable(available: seq<bool>, exclude: int, i: int) {
    0 <= i < |available| && available[i] && i != exclude
  }

  /** `x` modulo `n`, for values below twice `n`. */
  function Wrap(x: nat, n: nat): nat
    requires x < 2 * n
  {
    if x < n then x else x - n
  }

  lemma {:induction false} WrapIsMod(x: nat, n: nat)
    requires x < 2 * n
    ensures x % n == Wrap(x, n)
  {
    if x >= n {
      assert x == n + (x - n);
      assert (n + (x - n)) % n == (x - n) % n;
    }
  }

  /** The first usable server met from `start` at distance `offset` or more, or -1. */
  function FirstFrom(available: seq<bool>, exclude: int, start: nat, offset: nat): (r: int)
    requires start < |available| && offset <= |available|
    ensures r == -1 || Usable(available, exclude, r)
    decreases |available| - offset
  {
    if offset == |available| then -1
    else
      var i := Wrap(start + offset, |available|);
      if Usable(available, exclude, i) then i else FirstFrom(available, exclude, start, offset + 1)
  }

  function Pick(available: seq<bool>, exclude: int, cursor: nat): int {
    if available == [] then -1 else FirstFrom(available, exclude, cursor % |available|, 0)
  }

  function NextCursor(available: seq<bool>, exclude: int, cursor: nat): nat {
    var i := Pick(available, exclude, cursor);
    if i < 0 then cursor else (i + 1) % |available|
  }

  class ServerTable {
    var available: seq<bool>
    var nextPrimary: nat
    var nextBackup: nat

    constructor (available: seq<bool>)
      ensures this.available == available && nextPrimary == 0 && nextBackup == 0
    {
      this.available, nextPrimary, nextBackup := available, 0, 0;
    }

    method PickServer() returns (index: int)
      modifies this`nextPrimary
      ensures index == Pick(available, -1, old(nextPrimary))
      ensures nextPrimary == NextCursor(available, -1, old(nextPrimary))
    {
      index := ScanFrom(-1, nextPrimary);
      if index >= 0 {
        nextPrimary := (index + 1) % |available|;
      }
    }

    method PickBackupServer(exclude: int) returns (index: int)
      modifies this`nextBackup
      ensures index == Pick(available, exclude, old(nextBackup))
      ensures nextBackup == NextCursor(available, exclude, old(nextBackup))
    {
      index := ScanFrom(exclude, nextBackup);
      if index >= 0 {
        nextBackup := (index + 1) % |available|;
      }
    }

    /** The scan both choices share. */
    method ScanFrom(exclude: int, cursor: nat) returns (index: int)
      ensures index == Pick(available, exclude, cursor)
    {
      if |available| == 0 {
        return -1;
      }
      var start := cursor % |available|;
      var offset := 0;
      while offset < |available|
        invariant offset <= |available|
        invariant FirstFrom(available, exclude, start, offset) == FirstFrom(available, exclude, start, 0)
      {
        index := (start + offset) % |available|;
        WrapIsMod(start + offset, |available|);
        if index != exclude && available[index] {
          return;
        }
        offset := offset + 1;
      }
      return -1;
    }
  }

  /** The results of `m` picks in a row, from the given cursor. */
  function Picks(available: seq<bool>, exclude: int, cursor: nat, m: nat): seq<int>
    decreases m
  {
    if m == 0 then []
    else [Pick(available, exclude, cursor)] + Picks(available, exclude, NextCursor(available, exclude, cursor), m - 1)
  }

  ghost function UsableSet(available: seq<bool>, exclude: int): set<int> {
    set i | 0 <= i < |available| && Usable(available, exclude, i)
  }

  // -------------------------------------------------------------- one full round

  /** The usable servers in the order of a walk from `start`, from distance `p` on. */
  function Round(available: seq<bool>, exclude: int, start: nat, p: nat): seq<int>
    requires start < |available| && p <= |available|
    decreases |available| - p
  {
    if p == |available| then []
    else
      var i := Wrap(start + p, |available|);
      (if Usable(available, exclude, i) then [i] else []) + Round(available, exclude, start, p + 1)
  }

  lemma {:induction false} RoundMembers(available: seq<bool>, exclude: int, start: nat, p: nat, i: int)
    requires start < |available| && p <= |available|
    ensures i in Round(available, exclude, start, p) <==>
            Usable(available, exclude, i) && (if i >= start then i - start else i - start + |available|) >= p
    decreases |available| - p
  {
    if p < |available| {
      RoundMembers(available, exclude, start, p + 1, i);
      var j, rest := Wrap(start + p, |available|), Round(available, exclude, start, p + 1);
      assert i in Round(available, exclude, start, p) <==> (Usable(available, exclude, j) && i == j) || i in rest;
    }
  }

  predicate Distinct(s: seq<int>) {
    forall j, k :: 0 <= j < k < |s| ==> s[j] != s[k]
  }

  lemma {:induction false} RoundDistinct(available: seq<bool>, exclude: int, start: nat, p: nat)
    requires start < |available| && p <= |available|
    ensures Distinct(Round(available, exclude, start, p))
    decreases |available| - p
  {
    if p < |available| {
      var i := Wrap(start + p, |available|);
      RoundDistinct(available, exclude, start, p + 1);
      RoundMembers(available, exclude, start, p + 1, i);
      var rest := Round(available, exclude, start, p + 1);
      assert forall k :: 0 <= k < |rest| ==> rest[k] in rest;
    }
  }

  lemma {:induction false} DistinctSize(s: seq<int>, elements: set<int>)
    requires Distinct(s) && forall x :: x in s <==> x in elements
    ensures |s| == |elements|
  {
    if s == [] {
      assert forall x :: x in elements ==> x in s;
      assert elements == {};
    } else {
      var rest := s[1..];
      assert forall k :: 0 <= k < |rest| ==> rest[k] == s[k + 1];
      forall x ensures x in rest <==> x in elements - {s[0]} {
        if x in rest {
          var k :| 0 <= k < |rest| && rest[k] == x;
          assert s[k + 1] in s;
        }
        if x in elements - {s[0]} {
          assert x in s;
          var k :| 0 <= k < |s| && s[k] == x;
          assert rest[k - 1] == x;
        }
      }
      DistinctSize(rest, elements - {s[0]});
      assert s[0] in s;
    }
  }

  /** A scan that starts inside a round meets what the rest of that round begins with. */
  lemma {:induction false} ScanInsideRound(available: seq<bool>, exclude: int, start: nat, p: nat, offset: nat)
    requires start < |available| && p < |available| && p + offset <= |available|
    requires Round(available, exclude, start, p + offset) != []
    ensures FirstFrom(available, exclude, Wrap(start + p, |available|), offset)
            == Round(available, exclude, start, p + offset)[0]
    decreases |available| - offset
  {
    var i := Wrap(start + (p + offset), |available|);
    assert i == Wrap(Wrap(start + p, |available|) + offset, |available|);
    if !Usable(available, exclude, i) {
      ScanInsideRound(available, exclude, start, p, offset + 1);
    }
  }

  /** Where the rest of a round begins. */
  lemma {:induction false} RoundHead(available: seq<bool>, exclude: int, start: nat, p: nat) returns (q: nat)
    requires start < |available| && p <= |available|
    requires Round(available, exclude, start, p) != []
    ensures p <= q < |available|
    ensures Round(available, exclude, start, p) == [Wrap(start + q, |available|)] + Round(available, exclude, start, q + 1)
    decreases |available| - p
  {
    if Usable(available, exclude, Wrap(start + p, |available|)) {
      q := p;
    } else {
      q := RoundHead(available, exclude, start, p + 1);
    }
  }

  lemma {:induction false} PicksFollowRound(available: seq<bool>, exclude: int, start: nat, p: nat, cursor: nat)
    requires start < |available| && p <= |available|
    requires p < |available| ==> cursor % |available| == Wrap(start + p, |available|)
    ensures Picks(available, exclude, cursor, |Round(available, exclude, start, p)|) == Round(available, exclude, start, p)
    decreases |available| - p
  {
    var round := Round(available, exclude, start, p);
    if round != [] {
      var n := |available|;
      ScanInsideRound(available, exclude, start, p, 0);
      var q := RoundHead(available, exclude, start, p);
      var i := Wrap(start + q, n);
      assert Pick(available, exclude, cursor) == i;
      var next := NextCursor(available, exclude, cursor);
      WrapIsMod(i + 1, n);
      WrapIsMod(next, n);
      assert q + 1 < n ==> next == Wrap(start + (q + 1), n);
      PicksFollowRound(available, exclude, start, q + 1, next);
      assert Round(available, exclude, start, q + 1) == round[1..];
    }
  }

  /** Fair: with the servers fixed and k of them usable, any k picks in a row return each
      usable server exactly once, wherever the cursor stands. */
  lemma {:induction false} AnyRoundIsFair(available: seq<bool>, exclude: int, cursor: nat)
    ensures var usable := UsableSet(available, exclude);
            var picks := Picks(available, exclude, cursor, |usable|);
            && |picks| == |usable|
            && (forall i :: i in picks <==> i in usable)
            && Distinct(picks)
  {
    var usable := UsableSet(available, exclude);
    if available == [] {
      assert usable == {};
    } else {
      var start := cursor % |available|;
      var round := Round(available, exclude, start, 0);
      forall i ensures i in round <==> i in usable {
        RoundMembers(available, exclude, start, 0, i);
      }
      RoundDistinct(available, exclude, start, 0);
      DistinctSize(round, usable);
      PicksFollowRound(available, exclude, start, 0, cursor);
    }
  }

  /** How far `i` lies ahead of `start`, going round the table. */
  function Ahead(start: nat, i: nat, n: nat): int {
    if i >= start then i - start else i + n - start
  }

  lemma {:induction false} FirstFromIsNext(available: seq<bool>, exclude: int, start: nat, offset: nat) returns (d: nat)
    requires start < |available| && offset <= |available|
    requires FirstFrom(available, exclude, start, offset) >= 0
    ensures offset <= d < |available| && FirstFrom(available, exclude, start, offset) == Wrap(start + d, |available|)
    ensures available[Wrap(start + d, |available|)] && Wrap(start + d, |available|) != exclude
    ensures forall i :: 0 <= i < |available| && offset <= Ahead(start, i, |available|) < d ==> !available[i] || i == exclude
    decreases |available| - offset
  {
    if Usable(available, exclude, Wrap(start + offset, |available|)) {
      d := offset;
    } else {
      d := FirstFromIsNext(available, exclude, start, offset + 1);
    }
  }

  /** A pick is the next available server at or behind the cursor, in the order of the table and
      round its end; every server passed over is down or the excluded one; the cursor then stands
      right behind the pick. */
  lemma {:induction false} PickIsNext(available: seq<bool>, exclude: int, cursor: nat) returns (d: nat)
    requires Pick(available, exclude, cursor) >= 0
    ensures d < |available|
    ensures var n, start := |available|, cursor % |available|;
            && Pick(available, exclude, cursor) == Wrap(start + d, n)
            && available[Wrap(start + d, n)] && Wrap(start + d, n) != exclude
            && (forall i :: 0 <= i < n && Ahead(start, i, n) < d ==> !available[i] || i == exclude)
            && NextCursor(available, exclude, cursor) == (if Wrap(start + d, n) + 1 == n then 0 else Wrap(start + d, n) + 1)
  {
    d := FirstFromIsNext(available, exclude, cursor % |available|, 0);
    WrapIsMod(Pick(available, exclude, cursor) + 1, |available|);
  }

  /** A pick fails exactly when no server is usable. */
  lemma {:induction false} PickFailsIff(available: seq<bool>, exclude: int, cursor: nat)
    ensures Pick(available, exclude, cursor) == -1 <==> UsableSet(available, exclude) == {}
  {
    if available != [] {
      var start := cursor % |available|;
      var i := Pick(available, exclude, cursor);
      if i == -1 {
        forall j | j in UsableSet(available, exclude) ensures false {
          ScanMisses(available, exclude, start, 0, j);
        }
      } else {
        assert i in UsableSet(available, exclude);
      }
    }
  }

  lemma {:induction false} ScanMisses(available: seq<bool>, exclude: int, start: nat, offset: nat, j: int)
    requires start < |available| && offset <= |available|
    requires FirstFrom(available, exclude, start, offset) == -1
    requires 0 <= j < |available| && (if j >= start then j - start else j - start + |available|) >= offset
    ensures !Usable(available, exclude, j)
    decreases |available| - offset
  {
    if offset < |available| && Wrap(start + offset, |available|) != j {
      ScanMisses(available, exclude, start, offset + 1, j);
    }
  }
}
