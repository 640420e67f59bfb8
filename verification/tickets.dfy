/** Capability tickets: a table pruned in place, from which a ticket is taken at most once. */
module Tickets {
  import opened GrowArrays
  import opened Wrappers

  datatype Ticket = Ticket(token: string, file: string, user: string, op: string, expiry: int)

  /** What a client presents. */
  datatype Request = Request(token: string, user: string, file: string, op: string)

  predicate Matches(t: Ticket, r: Request) {
    t.token == r.token && t.user == r.user && t.file == r.file && t.op == r.op
  }

  /** Expiry zero means never. */
  predicate Expired(t: Ticket, now: int) {
    t.expiry != 0 && t.expiry < now
  }

  function Live(entries: seq<Ticket>, now: int): seq<Ticket> {
    if entries == [] then []
    else (if Expired(entries[0], now) then [] else [entries[0]]) + Live(entries[1..], now)
  }

  /** Pruning distributes over concatenation, so it keeps the order of what it keeps. */
  lemma {:induction false} LiveConcat(a: seq<Ticket>, b: seq<Ticket>, now: int)
    ensures Live(a + b, now) == Live(a, now) + Live(b, now)
  {
    if a == [] {
      assert a + b == b;
    } else {
      assert (a + b)[1..] == a[1..] + b;
      LiveConcat(a[1..], b, now);
    }
  }

  /** What is kept of the first `n` entries. */
  ghost function Kept(entries: seq<Ticket>, n: nat, now: int): seq<Ticket>
    requires n <= |entries|
  {
    Live(entries[..n], now)
  }

  lemma {:induction false} KeptEnds(entries: seq<Ticket>, now: int)
    ensures Kept(entries, 0, now) == [] && Kept(entries, |entries|, now) == Live(entries, now)
  {
    assert entries[..|entries|] == entries;
  }

  lemma {:induction false} KeptStep(entries: seq<Ticket>, n: nat, now: int)
    requires n < |entries|
    ensures Kept(entries, n + 1, now) == Kept(entries, n, now) + (if Expired(entries[n], now) then [] else [entries[n]])
  {
    assert entries[..n + 1] == entries[..n] + [entries[n]];
    LiveConcat(entries[..n], [entries[n]], now);
    assert [entries[n]][1..] == [];
  }

  /** Each ticket keeps its full count if it is not expired and disappears if it is. */
  lemma {:induction false} LiveCounts(entries: seq<Ticket>, now: int, t: Ticket)
    ensures multiset(Live(entries, now))[t] == if t.expiry == 0 || t.expiry >= now then multiset(entries)[t] else 0
  {
    if entries != [] {
      assert entries == [entries[0]] + entries[1..];
      LiveCounts(entries[1..], now, t);
    }
  }

  function FirstMatch(entries: seq<Ticket>, r: Request): (k: int)
    ensures -1 <= k < |entries|
    ensures k == -1 <==> forall j :: 0 <= j < |entries| ==> !Matches(entries[j], r)
    ensures k >= 0 ==> Matches(entries[k], r) && forall j :: 0 <= j < k ==> !Matches(entries[j], r)
  {
    if entries == [] then -1
    else if Matches(entries[0], r) then 0
    else
      var k := FirstMatch(entries[1..], r);
      if k < 0 then -1 else k + 1
  }

  lemma {:induction false} FirstMatchIs(entries: seq<Ticket>, r: Request, k: nat)
    requires k < |entries| && Matches(entries[k], r) && forall j :: 0 <= j < k ==> !Matches(entries[j], r)
    ensures FirstMatch(entries, r) == k
  {
  }

  function Without(entries: seq<Ticket>, k: int): seq<Ticket>
    requires -1 <= k < |entries|
  {
    if k < 0 then entries else entries[..k] + entries[k + 1..]
  }

  /** The table while pruning: what has been kept, and what has not been looked at. */
  ghost function Left(done: seq<Ticket>, before: seq<Ticket>, seen: nat): (left: seq<Ticket>)
    requires seen <= |before|
    ensures |left| == |done| + |before| - seen
  {
    done + before[seen..]
  }

  lemma {:induction false} LeftEnds(done: seq<Ticket>, before: seq<Ticket>)
    ensures Left([], before, 0) == before && Left(done, before, |before|) == done
  {
  }

  lemma {:induction false} LeftStep(done: seq<Ticket>, before: seq<Ticket>, seen: nat)
    requires seen < |before|
    ensures var left := Left(done, before, seen);
            && left[|done|] == before[seen]
            && left[..|done|] + left[|done| + 1..] == Left(done, before, seen + 1)
            && left == Left(done + [before[seen]], before, seen + 1)
  {
  }

  lemma {:induction false} LiveMembers(entries: seq<Ticket>, now: int, t: Ticket)
    ensures t in Live(entries, now) <==> t in entries && (t.expiry == 0 || t.expiry >= now)
  {
    LiveCounts(entries, now, t);
    assert t in multiset(entries) <==> t in entries;
    assert t in multiset(Live(entries, now)) <==> t in Live(entries, now);
  }

  /** What a take finds, field by field. */
  lemma {:induction false} TakeMeans(entries: seq<Ticket>, r: Request, now: int)
    ensures var live := Live(entries, now);
            var k := FirstMatch(live, r);
            && (k >= 0 ==>
                  var t := live[k];
                  && t in entries && t.token == r.token && t.user == r.user && t.file == r.file && t.op == r.op
                  && (t.expiry == 0 || t.expiry >= now))
            && (k < 0 ==>
                  forall t :: t in entries && t.token == r.token && t.user == r.user && t.file == r.file && t.op == r.op ==>
                    t.expiry != 0 && t.expiry < now)
  {
    var live := Live(entries, now);
    var k := FirstMatch(live, r);
    hide Live, FirstMatch;
    if k >= 0 {
      assert live[k] in live;
      LiveMembers(entries, now, live[k]);
    } else {
      forall t | t in entries && t.token == r.token && t.user == r.user && t.file == r.file && t.op == r.op
        ensures t.expiry != 0 && t.expiry < now
      {
        LiveMembers(entries, now, t);
        assert t in live ==> Matches(t, r);
      }
    }
  }

  class TicketTable {
    const entries: GrowArray<Ticket>

    ghost predicate Valid()
      reads entries
    {
      entries.Valid()
    }

    constructor ()
      ensures Valid() && entries.Items() == []
      ensures fresh(entries) && fresh(entries.data)
    {
      entries := new GrowArray();
    }

    method Add(t: Ticket)
      requires Valid()
      modifies entries, entries.data
      ensures Valid() && (entries.data == old(entries.data) || fresh(entries.data))
      ensures entries.Items() == old(entries.Items()) + [t]
    {
      entries.Push(t);
    }

    /** Drops expired tickets in one pass over the shrinking array. */
    method Prune(now: int)
      requires Valid()
      modifies entries`len, entries.data
      ensures Valid() && entries.data == old(entries.data)
      ensures entries.Items() == Live(old(entries.Items()), now)
    {
      hide Live, Left, Kept;
      ghost var before, done, seen := entries.Items(), [], 0;
      KeptEnds(before, now);
      LeftEnds([], before);
      var i := 0;
      while i < entries.len
        invariant Valid() && entries.data == old(entries.data)
        invariant 0 <= i == |done| <= entries.len && seen <= |before|
        invariant done == Kept(before, seen, now)
        invariant entries.Items() == Left(done, before, seen)
        decreases entries.len - i
      {
        KeptStep(before, seen, now);
        LeftStep(done, before, seen);
        var t := entries.data[i];
        assert t == entries.Items()[i];
        if Expired(t, now) {
          entries.Remove(i);
        } else {
          i := i + 1;
          done := done + [t];
        }
        seen := seen + 1;
      }
      LeftEnds(done, before);
    }

    /** Prunes, then hands out and removes the first ticket equal in all four fields. */
    method Take(r: Request, now: int) returns (ticket: Option<Ticket>)
      requires Valid()
      modifies entries`len, entries.data
      ensures Valid() && entries.data == old(entries.data)
      ensures var live := Live(old(entries.Items()), now);
              var k := FirstMatch(live, r);
              ticket == (if k < 0 then None else Some(live[k])) && entries.Items() == Without(live, k)
      ensures ticket.Some? ==>
                var t := ticket.value;
                && t in old(entries.Items())
                && t.token == r.token && t.user == r.user && t.file == r.file && t.op == r.op
                && (t.expiry == 0 || t.expiry >= now)
      ensures ticket.None? ==>
                forall t :: t in old(entries.Items()) && t.token == r.token && t.user == r.user && t.file == r.file && t.op == r.op ==>
                  t.expiry != 0 && t.expiry < now
    {
      hide Live;
      ghost var before := entries.Items();
      Prune(now);
      ghost var live := entries.Items();
      TakeMeans(before, r, now);
      var i := 0;
      while i < entries.len
        invariant 0 <= i <= entries.len && Valid()
        invariant entries.Items() == live && entries.data == old(entries.data)
        invariant forall j :: 0 <= j < i ==> !Matches(live[j], r)
      {
        var t := entries.data[i];
        assert t == live[i];
        if Matches(t, r) {
          FirstMatchIs(live, r, i);
          entries.Remove(i);
          return Some(t);
        }
        i := i + 1;
      }
      return None;
    }
  }

  // ------------------------------------------------------------------ whole runs

  datatype Event = AddEvent(ticket: Ticket) | PruneEvent(now: int) | TakeEvent(request: Request, now: int)

  /** The table, and the books kept beside it. */
  datatype Ledger = Ledger(entries: seq<Ticket>, added: multiset<Ticket>, pruned: multiset<Ticket>, taken: multiset<Ticket>)

  const Opened := Ledger([], multiset{}, multiset{}, multiset{})

  function Pruned(l: Ledger, now: int): Ledger {
    l.(entries := Live(l.entries, now),
       pruned := l.pruned + (multiset(l.entries) - multiset(Live(l.entries, now))))
  }

  function Step(l: Ledger, e: Event): Ledger {
    match e
    case AddEvent(t) => l.(entries := l.entries + [t], added := l.added + multiset{t})
    case PruneEvent(now) => Pruned(l, now)
    case TakeEvent(r, now) =>
      var p := Pruned(l, now);
      var k := FirstMatch(p.entries, r);
      if k < 0 then p else p.(entries := Without(p.entries, k), taken := p.taken + multiset{p.entries[k]})
  }

  function After(es: seq<Event>, n: nat): Ledger
    requires n <= |es|
  {
    if n == 0 then Opened else Step(After(es, n - 1), es[n - 1])
  }

  /** The ticket that operation `m` hands out. */
  function Handed(es: seq<Event>, m: nat): Option<Ticket>
    requires m < |es|
  {
    if es[m].TakeEvent? then
      var live := Live(After(es, m).entries, es[m].now);
      var k := FirstMatch(live, es[m].request);
      if k < 0 then None else Some(live[k])
    else None
  }

  function Clock(e: Event): Option<int> {
    match e
    case AddEvent(_) => None
    case PruneEvent(now) => Some(now)
    case TakeEvent(_, now) => Some(now)
  }

  predicate ClockNeverRunsBack(es: seq<Event>) {
    forall i, j :: 0 <= i <= j < |es| && Clock(es[i]).Some? && Clock(es[j]).Some? ==>
      Clock(es[i]).value <= Clock(es[j]).value
  }

  predicate Balanced(l: Ledger) {
    l.added == multiset(l.entries) + l.pruned + l.taken
  }

  lemma {:induction false} PruneBalances(l: Ledger, now: int)
    requires Balanced(l)
    ensures Balanced(Pruned(l, now))
  {
    var live := Live(l.entries, now);
    forall t: Ticket ensures multiset(live)[t] <= multiset(l.entries)[t] {
      LiveCounts(l.entries, now, t);
    }
  }

  lemma {:induction false} RemovalBalances(p: Ledger, k: nat)
    requires Balanced(p) && k < |p.entries|
    ensures Balanced(p.(entries := Without(p.entries, k), taken := p.taken + multiset{p.entries[k]}))
  {
    assert p.entries == p.entries[..k] + [p.entries[k]] + p.entries[k + 1..];
  }

  lemma {:induction false} StepBalances(l: Ledger, e: Event)
    requires Balanced(l)
    ensures Balanced(Step(l, e))
  {
    if Clock(e).Some? {
      PruneBalances(l, Clock(e).value);
      if e.TakeEvent? {
        var p := Pruned(l, e.now);
        var k := FirstMatch(p.entries, e.request);
        if k >= 0 {
          RemovalBalances(p, k);
        }
      }
    }
  }

  /** Every ticket ever added is in the table, or was pruned, or was taken: exactly once. */
  lemma {:induction false} TicketsBalance(es: seq<Event>, n: nat)
    requires n <= |es|
    ensures Balanced(After(es, n))
  {
    hide Step, Pruned;
    if n > 0 {
      var l, e := After(es, n - 1), es[n - 1];
      TicketsBalance(es, n - 1);
      StepBalances(l, e);
      assert After(es, n) == Step(l, e);
    }
  }

  lemma {:induction false} OnlyExpiredPruned(es: seq<Event>, n: nat, now: int, t: Ticket)
    requires n <= |es|
    requires forall i :: 0 <= i < n && Clock(es[i]).Some? ==> Clock(es[i]).value <= now
    requires t in After(es, n).pruned
    ensures Expired(t, now)
  {
    if n > 0 {
      var l := After(es, n - 1);
      if t in l.pruned {
        OnlyExpiredPruned(es, n - 1, now, t);
      } else {
        LiveCounts(l.entries, Clock(es[n - 1]).value, t);
      }
    }
  }

  /** A take succeeds exactly when some added ticket not yet taken agrees in all four fields
      and is not expired; when tickets are swept out of the table makes no difference. */
  lemma {:induction false} TakeSucceedsIff(es: seq<Event>, m: nat)
    requires m < |es| && es[m].TakeEvent? && ClockNeverRunsBack(es)
    ensures Handed(es, m).Some? <==>
            exists t :: t in After(es, m).added - After(es, m).taken
                        && t.token == es[m].request.token && t.user == es[m].request.user
                        && t.file == es[m].request.file && t.op == es[m].request.op
                        && (t.expiry == 0 || t.expiry >= es[m].now)
    ensures Handed(es, m).Some? ==>
            var t := Handed(es, m).value;
            && t in After(es, m).added - After(es, m).taken
            && t.token == es[m].request.token && t.user == es[m].request.user
            && t.file == es[m].request.file && t.op == es[m].request.op
            && (t.expiry == 0 || t.expiry >= es[m].now)
            && After(es, m + 1).taken == After(es, m).taken + multiset{t}
  {
    var l, e := After(es, m), es[m];
    var live := Live(l.entries, e.now);
    var k := FirstMatch(live, e.request);
    TicketsBalance(es, m);
    if k >= 0 {
      assert live[k] in multiset(live);
      LiveCounts(l.entries, e.now, live[k]);
    }
    forall t | t in l.added - l.taken
               && t.token == e.request.token && t.user == e.request.user && t.file == e.request.file && t.op == e.request.op
               && (t.expiry == 0 || t.expiry >= e.now)
      ensures k >= 0
    {
      if t in l.pruned {
        OnlyExpiredPruned(es, m, e.now, t);
      }
      LiveCounts(l.entries, e.now, t);
      assert t in multiset(live);
    }
  }

  lemma {:induction false} HandedIsTaken(es: seq<Event>, m: nat, t: Ticket)
    requires m < |es| && Handed(es, m) == Some(t)
    ensures After(es, m + 1).taken[t] == After(es, m).taken[t] + 1
  {
    var l, e := After(es, m), es[m];
    assert After(es, m + 1) == Step(l, e);
    assert Step(l, e).taken == l.taken + multiset{t};
  }

  function TimesHanded(es: seq<Event>, n: nat, t: Ticket): nat
    requires n <= |es|
  {
    if n == 0 then 0 else TimesHanded(es, n - 1, t) + (if Handed(es, n - 1) == Some(t) then 1 else 0)
  }

  function TimesAdded(es: seq<Event>, n: nat, t: Ticket): nat
    requires n <= |es|
  {
    if n == 0 then 0 else TimesAdded(es, n - 1, t) + (if es[n - 1] == AddEvent(t) then 1 else 0)
  }

  lemma {:induction false} AddedOnce(l: Ledger, e: Event, t: Ticket)
    ensures Step(l, e).added[t] == l.added[t] + (if e == AddEvent(t) then 1 else 0)
  {
  }

  lemma {:induction false} NotHandedNotTaken(es: seq<Event>, m: nat, t: Ticket)
    requires m < |es| && Handed(es, m) != Some(t)
    ensures After(es, m + 1).taken[t] == After(es, m).taken[t]
  {
    var l, e := After(es, m), es[m];
    assert After(es, m + 1) == Step(l, e);
    if Handed(es, m).Some? {
      assert Step(l, e).taken == l.taken + multiset{Handed(es, m).value};
    } else {
      assert Step(l, e).taken == l.taken;
    }
  }

  lemma {:induction false} StepTakenBy(es: seq<Event>, m: nat, t: Ticket)
    requires m < |es|
    ensures After(es, m + 1).taken[t] == After(es, m).taken[t] + (if Handed(es, m) == Some(t) then 1 else 0)
  {
    if Handed(es, m) == Some(t) {
      HandedIsTaken(es, m, t);
    } else {
      NotHandedNotTaken(es, m, t);
    }
  }

  lemma {:induction false} TakenIsHanded(es: seq<Event>, n: nat, t: Ticket)
    requires n <= |es|
    ensures After(es, n).taken[t] == TimesHanded(es, n, t)
  {
    hide After, Handed, Step;
    if n == 0 {
      NothingTakenAtStart(es);
    } else {
      TakenIsHanded(es, n - 1, t);
      StepTakenBy(es, n - 1, t);
    }
  }

  lemma {:induction false} NothingTakenAtStart(es: seq<Event>)
    ensures After(es, 0).taken == multiset{} && After(es, 0).added == multiset{}
  {
  }

  lemma {:induction false} StepAddedBy(es: seq<Event>, m: nat, t: Ticket)
    requires m < |es|
    ensures After(es, m + 1).added[t] == After(es, m).added[t] + (if es[m] == AddEvent(t) then 1 else 0)
  {
    var l, e := After(es, m), es[m];
    assert After(es, m + 1) == Step(l, e);
    hide Step, After;
    AddedOnce(l, e, t);
  }

  lemma {:induction false} AddedIsCounted(es: seq<Event>, n: nat, t: Ticket)
    requires n <= |es|
    ensures After(es, n).added[t] == TimesAdded(es, n, t)
  {
    hide After, Step;
    if n == 0 {
      NothingTakenAtStart(es);
    } else {
      AddedIsCounted(es, n - 1, t);
      StepAddedBy(es, n - 1, t);
    }
  }

  /** Single use: no ticket is handed out more often than it was added. */
  lemma {:induction false} TicketsAreSingleUse(es: seq<Event>, n: nat, t: Ticket)
    requires n <= |es|
    ensures TimesHanded(es, n, t) <= TimesAdded(es, n, t)
  {
    TakenIsHanded(es, n, t);
    AddedIsCounted(es, n, t);
    TicketsBalance(es, n);
    var l := After(es, n);
    assert l.added[t] == multiset(l.entries)[t] + l.pruned[t] + l.taken[t];
  }
}
