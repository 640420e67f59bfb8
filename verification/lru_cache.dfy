/** The name manager's location cache: slots in no order, each with the time of its last use. */
module LruCache {
  import opened Wrappers

  datatype Entry = Entry(name: string, server: int, lastUsed: int)

  /** The first position of a name, or -1. */
  function FirstNamed(names: seq<string>, name: string): (k: int)
    ensures -1 <= k < |names|
    ensures k == -1 <==> forall j :: 0 <= j < |names| ==> names[j] != name
    ensures k >= 0 ==> names[k] == name && forall j :: 0 <= j < k ==> names[j] != name
  {
    if names == [] then -1
    else if names[0] == name then 0
    else
      var k := FirstNamed(names[1..], name);
      if k < 0 then -1 else k + 1
  }

  function SlotNames(slots: seq<Entry>): (names: seq<string>)
    ensures |names| == |slots| && forall k :: 0 <= k < |slots| ==> names[k] == slots[k].name
  {
    seq(|slots|, k requires 0 <= k < |slots| => slots[k].name)
  }

  function IndexOf(slots: seq<Entry>, name: string): (k: int)
    ensures -1 <= k < |slots|
    ensures k == -1 <==> forall j :: 0 <= j < |slots| ==> slots[j].name != name
    ensures k >= 0 ==> slots[k].name == name && forall j :: 0 <= j < k ==> slots[j].name != name
  {
    var names := SlotNames(slots);
    assert forall j :: 0 <= j < |slots| ==> names[j] == slots[j].name;
    FirstNamed(names, name)
  }

  /** The first slot with the smallest time. */
  function Oldest(slots: seq<Entry>): (k: nat)
    requires slots != []
    ensures k < |slots|
    ensures forall j :: 0 <= j < |slots| ==> slots[k].lastUsed <= slots[j].lastUsed
    ensures forall j :: 0 <= j < k ==> slots[k].lastUsed < slots[j].lastUsed
  {
    var last := |slots| - 1;
    if last == 0 then 0
    else
      var k := Oldest(slots[..last]);
      assert forall j :: 0 <= j < last ==> slots[j] == slots[..last][j];
      if slots[last].lastUsed < slots[k].lastUsed then last else k
  }

  /** The last slot moves into the place of the oldest one. */
  function Evicted(slots: seq<Entry>): seq<Entry>
    requires slots != []
  {
    var last := |slots| - 1;
    slots[Oldest(slots) := slots[last]][..last]
  }

  function PutSlots(slots: seq<Entry>, capacity: nat, name: string, server: int, now: int): seq<Entry>
    requires capacity > 0
  {
    var k := IndexOf(slots, name);
    if k >= 0 then slots[k := Entry(name, server, now)]
    else (if |slots| >= capacity then Evicted(slots) else slots) + [Entry(name, server, now)]
  }

  function TouchSlots(slots: seq<Entry>, name: string, now: int): seq<Entry> {
    var k := IndexOf(slots, name);
    if k >= 0 then slots[k := slots[k].(lastUsed := now)] else slots
  }

  class Cache {
    const slots: array<Entry>
    var count: nat

    ghost predicate Valid()
      reads this
    {
      0 < slots.Length && count <= slots.Length
    }

    ghost function Items(): seq<Entry>
      requires Valid()
      reads this, slots
    {
      slots[..count]
    }

    constructor (capacity: nat)
      requires capacity > 0
      ensures Valid() && Items() == [] && fresh(slots) && slots.Length == capacity
    {
      slots := new Entry[capacity](_ => Entry("", 0, 0));
      count := 0;
    }

    method FindSlot(name: string) returns (k: int)
      requires Valid()
      ensures k == IndexOf(Items(), name)
    {
      var i := 0;
      while i < count
        invariant 0 <= i <= count
        invariant forall j :: 0 <= j < i ==> Items()[j].name != name
      {
        assert slots[i] == Items()[i];
        if slots[i].name == name {
          return i;
        }
        i := i + 1;
      }
      return -1;
    }

    method Lookup(name: string, now: int) returns (server: Option<int>)
      requires Valid()
      modifies slots
      ensures Valid() && Items() == TouchSlots(old(Items()), name, now)
      ensures var k := IndexOf(old(Items()), name);
              server == if k >= 0 then Some(old(Items())[k].server) else None
    {
      var k := FindSlot(name);
      if k < 0 {
        return None;
      }
      ghost var before := Items();
      slots[k] := slots[k].(lastUsed := now);
      assert Items() == before[k := before[k].(lastUsed := now)];
      return Some(slots[k].server);
    }

    /** Drops the entry that was used longest ago. */
    method Evict()
      requires Valid() && count > 0
      modifies this`count, slots
      ensures Valid() && count == old(count) - 1
      ensures Items() == Evicted(old(Items()))
    {
      ghost var before := Items();
      var oldest, oldestTime := 0, slots[0].lastUsed;
      var i := 1;
      assert before[..1] == [before[0]];
      while i < count
        invariant 1 <= i <= count && Items() == before
        invariant oldest == Oldest(before[..i]) && oldestTime == before[oldest].lastUsed
      {
        assert before[..i + 1][..i] == before[..i];
        if slots[i].lastUsed < oldestTime {
          oldest, oldestTime := i, slots[i].lastUsed;
        }
        i := i + 1;
      }
      assert before[..count] == before;
      slots[oldest] := slots[count - 1];
      count := count - 1;
      assert Items() == before[oldest := before[count]][..count];
    }

    method Put(name: string, server: int, now: int)
      requires Valid()
      modifies this`count, slots
      ensures Valid() && Items() == PutSlots(old(Items()), slots.Length, name, server, now)
    {
      var k := FindSlot(name);
      if k >= 0 {
        ghost var before := Items();
        slots[k] := slots[k].(server := server, lastUsed := now);
        assert Items() == before[k := Entry(name, server, now)];
        return;
      }
      if count >= slots.Length {
        Evict();
      }
      ghost var kept := Items();
      slots[count] := Entry(name, server, now);
      count := count + 1;
      assert Items() == kept + [Entry(name, server, now)];
    }
  }

  // ------------------------------------------------------------- recency, abstractly

  datatype Use = Use(name: string, server: int)

  function UseNames(uses: seq<Use>): (names: seq<string>)
    ensures |names| == |uses| && forall k :: 0 <= k < |uses| ==> names[k] == uses[k].name
  {
    seq(|uses|, k requires 0 <= k < |uses| => uses[k].name)
  }

  /** Where a name stands among all names ever put, the most recently used one first. */
  function Position(uses: seq<Use>, name: string): (k: int)
    ensures -1 <= k < |uses|
    ensures k == -1 <==> forall j :: 0 <= j < |uses| ==> uses[j].name != name
    ensures k >= 0 ==> uses[k].name == name && forall j :: 0 <= j < k ==> uses[j].name != name
  {
    var names := UseNames(uses);
    assert forall j :: 0 <= j < |uses| ==> names[j] == uses[j].name;
    FirstNamed(names, name)
  }

  function Drop<T>(s: seq<T>, k: nat): (r: seq<T>)
    requires k < |s|
    ensures |r| == |s| - 1
    ensures forall i :: 0 <= i < |r| ==> r[i] == s[if i < k then i else i + 1]
  {
    s[..k] + s[k + 1..]
  }

  function ToFront(uses: seq<Use>, u: Use): seq<Use> {
    var k := Position(uses, u.name);
    [u] + (if k < 0 then uses else Drop(uses, k))
  }

  datatype Op = PutOp(name: string, server: int) | LookupOp(name: string)

  /** A lookup counts as a use when the name is among the `capacity` latest. */
  function UseStep(uses: seq<Use>, capacity: nat, op: Op): seq<Use> {
    match op
    case PutOp(name, server) => ToFront(uses, Use(name, server))
    case LookupOp(name) =>
      var k := Position(uses, name);
      if 0 <= k < capacity then ToFront(uses, uses[k]) else uses
  }

  function Recency(capacity: nat, ops: seq<Op>, n: nat): seq<Use>
    requires n <= |ops|
  {
    if n == 0 then [] else UseStep(Recency(capacity, ops, n - 1), capacity, ops[n - 1])
  }

  function SlotStep(slots: seq<Entry>, capacity: nat, op: Op, now: int): seq<Entry>
    requires capacity > 0
  {
    match op
    case PutOp(name, server) => PutSlots(slots, capacity, name, server, now)
    case LookupOp(name) => TouchSlots(slots, name, now)
  }

  /** The slots after `n` operations, the k-th at time `times[k]`. */
  function Slots(capacity: nat, ops: seq<Op>, times: seq<int>, n: nat): seq<Entry>
    requires capacity > 0 && n <= |ops| == |times|
  {
    if n == 0 then [] else SlotStep(Slots(capacity, ops, times, n - 1), capacity, ops[n - 1], times[n - 1])
  }

  predicate DistinctSlots(slots: seq<Entry>) {
    forall i, j :: 0 <= i < j < |slots| ==> slots[i].name != slots[j].name
  }

  predicate DistinctUses(uses: seq<Use>) {
    forall i, j :: 0 <= i < j < |uses| ==> uses[i].name != uses[j].name
  }

  ghost predicate SameElements(a: seq<Entry>, b: seq<Entry>) {
    && (forall i :: 0 <= i < |a| ==> a[i] in b)
    && (forall i :: 0 <= i < |b| ==> b[i] in a)
  }

  ghost predicate Falling(recent: seq<Entry>) {
    forall i, j :: 0 <= i < j < |recent| ==> recent[i].lastUsed > recent[j].lastUsed
  }

  ghost predicate Begins(recent: seq<Entry>, uses: seq<Use>) {
    |recent| <= |uses| && forall i :: 0 <= i < |recent| ==> Use(recent[i].name, recent[i].server) == uses[i]
  }

  /** `recent` lists the slots by falling time, and its names and values begin `uses`. */
  ghost predicate Ordered(slots: seq<Entry>, recent: seq<Entry>, uses: seq<Use>, capacity: nat) {
    && |slots| == |recent| == Min(capacity, |uses|)
    && DistinctSlots(slots) && DistinctUses(uses)
    && SameElements(slots, recent) && Falling(recent) && Begins(recent, uses)
  }

  ghost predicate Before(slots: seq<Entry>, now: int) {
    forall i :: 0 <= i < |slots| ==> slots[i].lastUsed < now
  }

  lemma {:induction false} ToFrontDistinct(uses: seq<Use>, u: Use)
    requires DistinctUses(uses)
    ensures DistinctUses(ToFront(uses, u))
  {
    hide Drop;
  }

  /** A name is cached exactly when it is among the latest `capacity` ones. */
  lemma {:induction false} CachedIffRecent(slots: seq<Entry>, recent: seq<Entry>, uses: seq<Use>, capacity: nat, name: string) returns (j: int)
    requires Ordered(slots, recent, uses, capacity)
    ensures j == Position(uses, name)
    ensures IndexOf(slots, name) >= 0 <==> 0 <= j < capacity
    ensures IndexOf(slots, name) >= 0 ==> 0 <= j < |recent| && recent[j] == slots[IndexOf(slots, name)]
  {
    var k := IndexOf(slots, name);
    j := Position(uses, name);
    if k >= 0 {
      var i :| 0 <= i < |recent| && recent[i] == slots[k];
      assert uses[i].name == name;
    }
    forall i | 0 <= i < |recent| && uses[i].name == name ensures k >= 0 {
      assert recent[i] in slots;
    }
  }

  lemma {:induction false} FrontFalls(e: Entry, rest: seq<Entry>)
    requires Falling(rest) && Before(rest, e.lastUsed)
    ensures Falling([e] + rest)
  {
  }

  lemma {:induction false} DropMembers(slots: seq<Entry>, recent: seq<Entry>, k: nat, j: nat, e: Entry)
    requires k < |slots| && j < |recent| && recent[j] == slots[k]
    requires DistinctSlots(slots) && Falling(recent) && SameElements(slots, recent)
    ensures SameElements(slots[k := e], [e] + Drop(recent, j))
  {
    hide Drop;
    var slots', recent' := slots[k := e], [e] + Drop(recent, j);
    forall i | 0 <= i < |slots'| ensures slots'[i] in recent' {
      if i == k {
        assert recent'[0] == e;
      } else {
        var a :| 0 <= a < |recent| && recent[a] == slots[i];
        assert recent'[if a < j then a + 1 else a] == slots'[i];
      }
    }
    forall i | 0 <= i < |recent'| ensures recent'[i] in slots' {
      if i == 0 {
        assert slots'[k] == e;
      } else {
        var a := if i - 1 < j then i - 1 else i;
        assert recent'[i] == recent[a];
        var b :| 0 <= b < |slots| && slots[b] == recent[a];
        assert slots'[b] == recent'[i];
      }
    }
  }

  lemma {:induction false} HitKeepsSizes(slots: seq<Entry>, uses: seq<Use>, name: string, server: int, now: int)
    requires IndexOf(slots, name) >= 0 && Position(uses, name) >= 0 && DistinctSlots(slots)
    ensures DistinctSlots(slots[IndexOf(slots, name) := Entry(name, server, now)])
    ensures |ToFront(uses, Use(name, server))| == |uses|
  {
  }

  /** Using a cached name again, with the value `server`. */
  lemma {:induction false} HitKeepsOrder(slots: seq<Entry>, recent: seq<Entry>, uses: seq<Use>, capacity: nat, name: string, server: int, now: int)
    returns (recent': seq<Entry>)
    requires Ordered(slots, recent, uses, capacity) && Before(slots, now)
    requires IndexOf(slots, name) >= 0
    ensures Ordered(slots[IndexOf(slots, name) := Entry(name, server, now)], recent', ToFront(uses, Use(name, server)), capacity)
  {
    var k, e := IndexOf(slots, name), Entry(name, server, now);
    var j := CachedIffRecent(slots, recent, uses, capacity, name);
    hide Drop, SameElements, DistinctSlots, DistinctUses, Begins, IndexOf, Position, ToFront;
    var rest := Drop(recent, j);
    recent' := [e] + rest;
    HitKeepsSizes(slots, uses, name, server, now);
    ToFrontDistinct(uses, Use(name, server));
    DropMembers(slots, recent, k, j, e);
    RecentBefore(slots, recent, now);
    FallingDrops(recent, j, now);
    hide Falling, Before;
    FrontFalls(e, rest);
    BeginsMoved(recent, uses, j, e);
  }

  lemma {:induction false} FallingDrops(recent: seq<Entry>, j: nat, now: int)
    requires Falling(recent) && Before(recent, now) && j < |recent|
    ensures Falling(Drop(recent, j)) && Before(Drop(recent, j), now)
  {
    hide Drop;
  }

  lemma {:induction false} BeginsMoved(recent: seq<Entry>, uses: seq<Use>, j: nat, e: Entry)
    requires Begins(recent, uses) && j < |recent| && j == Position(uses, e.name)
    ensures Begins([e] + Drop(recent, j), ToFront(uses, Use(e.name, e.server)))
  {
    hide Drop;
    var rest := Drop(recent, j);
    forall i | 0 <= i < |rest| ensures Use(rest[i].name, rest[i].server) == Drop(uses, j)[i] {
      var a := if i < j then i else i + 1;
      assert rest[i] == recent[a] && Use(recent[a].name, recent[a].server) == uses[a];
    }
  }

  lemma {:induction false} RecentBefore(slots: seq<Entry>, recent: seq<Entry>, now: int)
    requires SameElements(slots, recent) && Before(slots, now)
    ensures Before(recent, now)
  {
    forall i | 0 <= i < |recent| ensures recent[i].lastUsed < now {
      var k :| 0 <= k < |slots| && slots[k] == recent[i];
    }
  }

  lemma {:induction false} NewMembers(slots: seq<Entry>, recent: seq<Entry>, e: Entry)
    requires SameElements(slots, recent)
    ensures SameElements(slots + [e], [e] + recent)
  {
    var slots', recent' := slots + [e], [e] + recent;
    forall i | 0 <= i < |slots'| ensures slots'[i] in recent' {
      if i == |slots| {
        assert recent'[0] == e;
      } else {
        var a :| 0 <= a < |recent| && recent[a] == slots[i];
        assert recent'[a + 1] == slots[i];
      }
    }
    forall i | 0 <= i < |recent'| ensures recent'[i] in slots' {
      if i == 0 {
        assert slots'[|slots|] == e;
      } else {
        var a :| 0 <= a < |slots| && slots[a] == recent[i - 1];
        assert slots'[a] == recent'[i];
      }
    }
  }

  /** The first `m` uses stay in place behind a new front, unless the new one was among them. */
  lemma {:induction false} BeginsBehind(recent: seq<Entry>, uses: seq<Use>, e: Entry)
    requires Begins(recent, uses)
    requires Position(uses, e.name) < 0 || Position(uses, e.name) >= |recent|
    ensures Begins([e] + recent, ToFront(uses, Use(e.name, e.server)))
  {
    hide Drop;
  }

  lemma {:induction false} MissSizes(kept: seq<Entry>, front: seq<Entry>, uses: seq<Use>, capacity: nat, e: Entry)
    requires |front| < capacity && DistinctSlots(kept) && forall i :: 0 <= i < |kept| ==> kept[i].name != e.name
    requires Position(uses, e.name) < 0 ==> |front| == Min(capacity - 1, |uses|)
    requires Position(uses, e.name) >= 0 ==> |front| == capacity - 1 <= Position(uses, e.name)
    ensures DistinctSlots(kept + [e])
    ensures |[e] + front| == Min(capacity, |ToFront(uses, Use(e.name, e.server))|)
  {
  }

  /** Putting a name that is not cached; `kept` and `front` are what an eviction leaves. */
  lemma {:induction false} MissKeepsOrder(kept: seq<Entry>, front: seq<Entry>, uses: seq<Use>, capacity: nat, name: string, server: int, now: int)
    requires |kept| == |front| < capacity && DistinctSlots(kept) && DistinctUses(uses)
    requires SameElements(kept, front) && Falling(front) && Begins(front, uses) && Before(kept, now)
    requires forall i :: 0 <= i < |kept| ==> kept[i].name != name
    requires Position(uses, name) < 0 ==> |front| == Min(capacity - 1, |uses|)
    requires Position(uses, name) >= 0 ==> |front| == capacity - 1 <= Position(uses, name)
    ensures Ordered(kept + [Entry(name, server, now)], [Entry(name, server, now)] + front, ToFront(uses, Use(name, server)), capacity)
  {
    var e := Entry(name, server, now);
    hide SameElements, DistinctSlots, DistinctUses, Begins, Falling, Before, Position, ToFront;
    MissSizes(kept, front, uses, capacity, e);
    NewMembers(kept, front, e);
    RecentBefore(kept, front, now);
    FrontFalls(e, front);
    ToFrontDistinct(uses, Use(name, server));
    assert Position(uses, name) < 0 || Position(uses, name) >= |front|;
    BeginsBehind(front, uses, e);
  }

  /** The slot evicted from a full cache is the least recently used one. */
  lemma {:induction false} OldestIsLast(slots: seq<Entry>, recent: seq<Entry>)
    requires slots != [] && |recent| == |slots| && SameElements(slots, recent) && Falling(recent)
    ensures slots[Oldest(slots)] == recent[|recent| - 1]
  {
    var o, last := Oldest(slots), |recent| - 1;
    var j :| 0 <= j < |recent| && recent[j] == slots[o];
    var i :| 0 <= i < |slots| && slots[i] == recent[last];
    assert slots[o].lastUsed <= slots[i].lastUsed;
  }

  lemma {:induction false} EvictedIndex(slots: seq<Entry>, i: nat)
    requires i < |slots| - 1
    ensures |Evicted(slots)| == |slots| - 1
    ensures Evicted(slots)[i] == slots[if i == Oldest(slots) then |slots| - 1 else i]
  {
  }

  /** `kept` is `slots` without its oldest entry `o`, whose place the last one has taken. */
  ghost predicate WithoutOldest(slots: seq<Entry>, kept: seq<Entry>, o: nat) {
    && o < |slots| == |kept| + 1
    && (forall j :: 0 <= j < |slots| ==> slots[o].lastUsed <= slots[j].lastUsed)
    && (forall j :: 0 <= j < |kept| ==> kept[j] == slots[if j == o then |kept| else j])
  }

  lemma {:induction false} EvictedIsWithoutOldest(slots: seq<Entry>)
    requires slots != []
    ensures WithoutOldest(slots, Evicted(slots), Oldest(slots))
  {
    assert |Evicted(slots)| == |slots| - 1;
    forall j | 0 <= j < |slots| - 1 ensures Evicted(slots)[j] == slots[if j == Oldest(slots) then |slots| - 1 else j] {
      EvictedIndex(slots, j);
    }
  }

  lemma {:induction false} KeptAreRecent(slots: seq<Entry>, kept: seq<Entry>, o: nat, recent: seq<Entry>, i: nat)
    requires WithoutOldest(slots, kept, o) && DistinctSlots(slots) && |recent| == |slots| && SameElements(slots, recent)
    requires slots[o] == recent[|recent| - 1] && i < |kept|
    ensures kept[i] in recent[..|recent| - 1]
  {
    var a := if i == o then |kept| else i;
    var b :| 0 <= b < |recent| && recent[b] == slots[a];
    assert recent[..|recent| - 1][b] == kept[i];
  }

  lemma {:induction false} RecentAreKept(slots: seq<Entry>, kept: seq<Entry>, o: nat, recent: seq<Entry>, i: nat)
    requires WithoutOldest(slots, kept, o) && |recent| == |slots| && SameElements(slots, recent) && Falling(recent)
    requires slots[o] == recent[|recent| - 1] && i < |recent| - 1
    ensures recent[i] in kept
  {
    var a :| 0 <= a < |slots| && slots[a] == recent[i];
    assert kept[if a == |kept| then o else a] == recent[i];
  }

  lemma {:induction false} EvictedMembers(slots: seq<Entry>, recent: seq<Entry>)
    requires slots != [] && |recent| == |slots| && SameElements(slots, recent) && Falling(recent)
    requires DistinctSlots(slots)
    ensures SameElements(Evicted(slots), recent[..|recent| - 1])
  {
    OldestIsLast(slots, recent);
    EvictedIsWithoutOldest(slots);
    var kept, o, front := Evicted(slots), Oldest(slots), recent[..|recent| - 1];
    hide Evicted, Oldest, Falling, DistinctSlots;
    forall i | 0 <= i < |kept| ensures kept[i] in front {
      KeptAreRecent(slots, kept, o, recent, i);
    }
    forall i | 0 <= i < |front| ensures front[i] in kept {
      RecentAreKept(slots, kept, o, recent, i);
    }
  }

  lemma {:induction false} EvictedKeeps(slots: seq<Entry>, now: int, name: string)
    requires slots != [] && DistinctSlots(slots) && Before(slots, now) && IndexOf(slots, name) < 0
    ensures DistinctSlots(Evicted(slots)) && Before(Evicted(slots), now)
    ensures forall i :: 0 <= i < |Evicted(slots)| ==> Evicted(slots)[i].name != name
  {
    forall i | 0 <= i < |Evicted(slots)|
      ensures Evicted(slots)[i] == slots[if i == Oldest(slots) then |slots| - 1 else i]
    {
      EvictedIndex(slots, i);
    }
  }

  predicate ClockStrict(times: seq<int>) {
    forall i, j :: 0 <= i < j < |times| ==> times[i] < times[j]
  }

  lemma {:induction false} SlotTimes(slots: seq<Entry>, capacity: nat, op: Op, now: int, later: int)
    requires capacity > 0 && Before(slots, now) && now < later
    ensures Before(SlotStep(slots, capacity, op, now), later)
  {
    if op.PutOp? && IndexOf(slots, op.name) < 0 && |slots| >= capacity {
      var left := Evicted(slots);
      forall i | 0 <= i < |left| ensures left[i].lastUsed < later {
        EvictedIndex(slots, i);
      }
    }
  }

  lemma {:induction false} SlotsBefore(capacity: nat, ops: seq<Op>, times: seq<int>, n: nat, later: int)
    requires capacity > 0 && n <= |ops| == |times| && ClockStrict(times)
    requires n > 0 ==> times[n - 1] < later
    ensures Before(Slots(capacity, ops, times, n), later)
  {
    if n > 0 {
      SlotsBefore(capacity, ops, times, n - 1, times[n - 1]);
      SlotTimes(Slots(capacity, ops, times, n - 1), capacity, ops[n - 1], times[n - 1], later);
    }
  }

  lemma {:induction false} NothingCached(capacity: nat)
    ensures Ordered([], [], [], capacity)
  {
  }

  /** With a strictly advancing clock the cache always holds exactly the `capacity` most
      recently used names, each once and with its last put value. */
  lemma {:induction false} CacheIsLru(capacity: nat, ops: seq<Op>, times: seq<int>, n: nat) returns (recent: seq<Entry>)
    requires capacity > 0 && n <= |ops| == |times| && ClockStrict(times)
    ensures Ordered(Slots(capacity, ops, times, n), recent, Recency(capacity, ops, n), capacity)
  {
    hide Ordered, Before, SlotStep, UseStep;
    if n == 0 {
      recent := [];
      NothingCached(capacity);
    } else {
      var before := CacheIsLru(capacity, ops, times, n - 1);
      SlotsBefore(capacity, ops, times, n - 1, times[n - 1]);
      var slots, uses := Slots(capacity, ops, times, n - 1), Recency(capacity, ops, n - 1);
      recent := OpKeepsOrder(slots, before, uses, capacity, ops[n - 1], times[n - 1]);
    }
  }

  lemma {:induction false} FillKeepsOrder(slots: seq<Entry>, recent: seq<Entry>, uses: seq<Use>, capacity: nat, e: Entry)
    requires capacity > 0 && Ordered(slots, recent, uses, capacity) && Before(slots, e.lastUsed)
    requires IndexOf(slots, e.name) < 0 && |slots| < capacity
    ensures Ordered(slots + [e], [e] + recent, ToFront(uses, Use(e.name, e.server)), capacity)
  {
    var j := CachedIffRecent(slots, recent, uses, capacity, e.name);
    MissKeepsOrder(slots, recent, uses, capacity, e.name, e.server, e.lastUsed);
  }

  lemma {:induction false} EvictKeepsOrder(slots: seq<Entry>, recent: seq<Entry>, uses: seq<Use>, capacity: nat, e: Entry)
    requires capacity > 0 && Ordered(slots, recent, uses, capacity) && Before(slots, e.lastUsed)
    requires IndexOf(slots, e.name) < 0 && |slots| >= capacity
    ensures Ordered(Evicted(slots) + [e], [e] + recent[..|recent| - 1], ToFront(uses, Use(e.name, e.server)), capacity)
  {
    var j := CachedIffRecent(slots, recent, uses, capacity, e.name);
    EvictedMembers(slots, recent);
    EvictedKeeps(slots, e.lastUsed, e.name);
    MissKeepsOrder(Evicted(slots), recent[..|recent| - 1], uses, capacity, e.name, e.server, e.lastUsed);
  }

  lemma {:induction false} OpKeepsOrder(slots: seq<Entry>, recent: seq<Entry>, uses: seq<Use>, capacity: nat, op: Op, now: int)
    returns (recent': seq<Entry>)
    requires capacity > 0 && Ordered(slots, recent, uses, capacity) && Before(slots, now)
    ensures Ordered(SlotStep(slots, capacity, op, now), recent', UseStep(uses, capacity, op), capacity)
  {
    var k := IndexOf(slots, op.name);
    var j := CachedIffRecent(slots, recent, uses, capacity, op.name);
    assert |slots| == |recent|;
    assert k >= 0 ==> Use(recent[j].name, recent[j].server) == uses[j];
    hide Ordered, Evicted, ToFront, IndexOf, Position;
    if op.LookupOp? {
      if k < 0 {
        recent' := recent;
      } else {
        recent' := HitKeepsOrder(slots, recent, uses, capacity, op.name, slots[k].server, now);
      }
    } else if k >= 0 {
      recent' := HitKeepsOrder(slots, recent, uses, capacity, op.name, op.server, now);
    } else if |slots| < capacity {
      recent' := [Entry(op.name, op.server, now)] + recent;
      FillKeepsOrder(slots, recent, uses, capacity, Entry(op.name, op.server, now));
    } else {
      recent' := [Entry(op.name, op.server, now)] + recent[..|recent| - 1];
      EvictKeepsOrder(slots, recent, uses, capacity, Entry(op.name, op.server, now));
    }
  }

  /** The value of the latest put of a name. */
  function LastPut(ops: seq<Op>, n: nat, name: string): Option<int>
    requires n <= |ops|
  {
    if n == 0 then None
    else if ops[n - 1].PutOp? && ops[n - 1].name == name then Some(ops[n - 1].server)
    else LastPut(ops, n - 1, name)
  }

  /** The recency list names exactly what was ever put, with the last value put. */
  lemma {:induction false} RecencyHoldsLastPut(capacity: nat, ops: seq<Op>, n: nat, name: string)
    requires n <= |ops|
    ensures DistinctUses(Recency(capacity, ops, n))
    ensures var k := Position(Recency(capacity, ops, n), name);
            LastPut(ops, n, name) == if k < 0 then None else Some(Recency(capacity, ops, n)[k].server)
  {
    hide ToFront, DistinctUses, Position, UseStep;
    if n == 0 {
      NothingUsed(name);
    } else {
      RecencyHoldsLastPut(capacity, ops, n - 1, name);
      UseStepFinds(Recency(capacity, ops, n - 1), capacity, ops[n - 1], name);
    }
  }

  /** A put, and a lookup that hits, moves its name to the front; all others keep their order. */
  lemma {:induction false} UsedStandsFirst(uses: seq<Use>, capacity: nat, op: Op)
    requires op.PutOp? || (exists k :: 0 <= k < capacity && k < |uses| && uses[k].name == op.name)
    requires DistinctUses(uses)
    ensures var uses' := UseStep(uses, capacity, op);
            && uses' != [] && uses'[0].name == op.name
            && (op.PutOp? ==> uses'[0].server == op.server)
            && (op.LookupOp? ==> uses'[0] in uses)
            && Others(uses', op.name) == Others(uses, op.name)
  {
    var k := Position(uses, op.name);
    var u := if op.PutOp? then Use(op.name, op.server) else uses[k];
    assert UseStep(uses, capacity, op) == ToFront(uses, u);
    OthersAfterFront(uses, u);
  }

  /** A miss changes nothing. */
  lemma {:induction false} MissChangesNothing(uses: seq<Use>, capacity: nat, name: string)
    requires forall k :: 0 <= k < capacity && k < |uses| ==> uses[k].name != name
    ensures UseStep(uses, capacity, LookupOp(name)) == uses
  {
  }

  function Others(uses: seq<Use>, name: string): seq<Use> {
    if uses == [] then []
    else (if uses[0].name == name then [] else [uses[0]]) + Others(uses[1..], name)
  }

  lemma {:induction false} OthersConcat(a: seq<Use>, b: seq<Use>, name: string)
    ensures Others(a + b, name) == Others(a, name) + Others(b, name)
  {
    if a == [] {
      assert a + b == b;
    } else {
      assert (a + b)[1..] == a[1..] + b;
      OthersConcat(a[1..], b, name);
    }
  }

  lemma {:induction false} OthersMoved(x: seq<Use>, v: Use, y: seq<Use>, u: Use)
    requires u.name == v.name
    ensures Others([u] + (x + y), u.name) == Others(x + [v] + y, u.name)
  {
    hide Others;
    OthersConcat(x + [v], y, u.name);
    OthersConcat(x, [v], u.name);
    OthersConcat([u], x + y, u.name);
    OthersConcat(x, y, u.name);
    OneOther(u, u.name);
    OneOther(v, u.name);
  }

  lemma {:induction false} OthersAfterFront(uses: seq<Use>, u: Use)
    ensures Others(ToFront(uses, u), u.name) == Others(uses, u.name)
  {
    hide Position, Others, Drop;
    var k := Position(uses, u.name);
    if k < 0 {
      OthersConcat([u], uses, u.name);
      OneOther(u, u.name);
    } else {
      var x, y := uses[..k], uses[k + 1..];
      assert uses == x + [uses[k]] + y;
      assert Drop(uses, k) == x + y;
      OthersMoved(x, uses[k], y, u);
    }
  }

  lemma {:induction false} OneOther(u: Use, name: string)
    ensures u.name == name ==> Others([u], name) == []
  {
  }

  lemma {:induction false} NothingUsed(name: string)
    ensures DistinctUses([]) && Position([], name) == -1
  {
  }

  /** Only a put of the name itself changes what is known about a name. */
  lemma {:induction false} UseStepFinds(uses: seq<Use>, capacity: nat, op: Op, name: string)
    requires DistinctUses(uses)
    ensures var uses' := UseStep(uses, capacity, op);
            var k, j := Position(uses, name), Position(uses', name);
            && DistinctUses(uses')
            && if op.PutOp? && op.name == name then j >= 0 && uses'[j].server == op.server
               else (j < 0 <==> k < 0) && (k >= 0 ==> uses'[j] == uses[k])
  {
    hide ToFront, DistinctUses;
    if op.PutOp? {
      ToFrontFinds(uses, Use(op.name, op.server), name);
    } else {
      var k := Position(uses, op.name);
      if 0 <= k < capacity {
        ToFrontFinds(uses, uses[k], name);
      }
    }
  }

  lemma {:induction false} ToFrontFinds(uses: seq<Use>, u: Use, name: string)
    requires DistinctUses(uses)
    ensures DistinctUses(ToFront(uses, u))
    ensures var front := ToFront(uses, u);
            var k, j := Position(uses, name), Position(front, name);
            if name == u.name then j == 0 && front[j] == u
            else (j < 0 <==> k < 0) && (k >= 0 ==> front[j] == uses[k])
  {
    hide Position, ToFront, DistinctUses;
    ToFrontDistinct(uses, u);
    if name == u.name {
      FrontIs(uses, u);
      PositionIs(ToFront(uses, u), 0, name);
    } else if Position(uses, name) >= 0 {
      var i := KeptBehindFront(uses, u, Position(uses, name));
      PositionIs(ToFront(uses, u), i, name);
    } else {
      StillAbsent(uses, u, name);
    }
  }

  lemma {:induction false} FrontIs(uses: seq<Use>, u: Use)
    ensures ToFront(uses, u) != [] && ToFront(uses, u)[0] == u
  {
  }

  lemma {:induction false} KeptBehindFront(uses: seq<Use>, u: Use, k: nat) returns (i: nat)
    requires k < |uses| && uses[k].name != u.name
    ensures i < |ToFront(uses, u)| && ToFront(uses, u)[i] == uses[k]
  {
    hide Position, Drop;
    var p := Position(uses, u.name);
    i := if 0 <= p < k then k else k + 1;
  }

  lemma {:induction false} StillAbsent(uses: seq<Use>, u: Use, name: string)
    requires name != u.name && Position(uses, name) < 0
    ensures Position(ToFront(uses, u), name) < 0
  {
    hide Position, Drop;
    var p, front := Position(uses, u.name), ToFront(uses, u);
    forall i | 0 <= i < |front| ensures front[i].name != name {
      if i == 0 {
        assert front[0] == u;
      } else {
        var a := if 0 <= p <= i - 1 then i else i - 1;
        assert front[i] == uses[a];
      }
    }
    assert Position(front, name) == -1;
  }

  lemma {:induction false} PositionIs(uses: seq<Use>, k: nat, name: string)
    requires DistinctUses(uses) && k < |uses| && uses[k].name == name
    ensures Position(uses, name) == k
  {
  }

  /** What a lookup answers after any run: the last put value, exactly for the latest names. */
  lemma {:induction false} LookupAnswers(capacity: nat, ops: seq<Op>, times: seq<int>, n: nat, name: string)
    requires capacity > 0 && n <= |ops| == |times| && ClockStrict(times)
    ensures var slots := Slots(capacity, ops, times, n);
            var k := IndexOf(slots, name);
            && (k >= 0 <==> 0 <= Position(Recency(capacity, ops, n), name) < capacity)
            && (k >= 0 ==> Some(slots[k].server) == LastPut(ops, n, name))
  {
    var slots, uses := Slots(capacity, ops, times, n), Recency(capacity, ops, n);
    var recent := CacheIsLru(capacity, ops, times, n);
    var j := CachedIffRecent(slots, recent, uses, capacity, name);
    RecencyHoldsLastPut(capacity, ops, n, name);
    if IndexOf(slots, name) >= 0 {
      assert Use(recent[j].name, recent[j].server) == uses[j];
    }
  }

  // ----------------------------------------------------- clocks with equal readings

  predicate ClockSteady(times: seq<int>) {
    forall i, j :: 0 <= i <= j < |times| ==> times[i] <= times[j]
  }

  /** Every name ever put, with its last put value and the time of its last use. */
  function KnownStep(known: map<string, Entry>, slots: seq<Entry>, op: Op, now: int): map<string, Entry> {
    match op
    case PutOp(name, server) => known[name := Entry(name, server, now)]
    case LookupOp(name) =>
      if name in known && IndexOf(slots, name) >= 0 then known[name := known[name].(lastUsed := now)] else known
  }

  function Known(capacity: nat, ops: seq<Op>, times: seq<int>, n: nat): map<string, Entry>
    requires capacity > 0 && n <= |ops| == |times|
  {
    if n == 0 then map[]
    else KnownStep(Known(capacity, ops, times, n - 1), Slots(capacity, ops, times, n - 1), ops[n - 1], times[n - 1])
  }

  ghost predicate CachesKnown(slots: seq<Entry>, known: map<string, Entry>) {
    forall k :: 0 <= k < |slots| ==> slots[k].name in known && known[slots[k].name] == slots[k]
  }

  /** A known name is left out only by a full cache that uses no older entry. */
  ghost predicate LeftOut(slots: seq<Entry>, known: map<string, Entry>, capacity: nat, name: string) {
    name in known && IndexOf(slots, name) < 0 ==>
      |slots| == capacity && forall k :: 0 <= k < |slots| ==> known[name].lastUsed <= slots[k].lastUsed
  }

  ghost predicate Newest(slots: seq<Entry>, known: map<string, Entry>, capacity: nat) {
    && |slots| <= capacity && DistinctSlots(slots) && CachesKnown(slots, known)
    && forall name :: name in known ==> LeftOut(slots, known, capacity, name)
  }

  ghost predicate UsedBy(known: map<string, Entry>, now: int) {
    forall name :: name in known ==> known[name].lastUsed <= now
  }

  lemma {:induction false} LeftOutAfterRenewal(slots: seq<Entry>, known: map<string, Entry>, capacity: nat, k: nat, e: Entry, name: string)
    requires LeftOut(slots, known, capacity, name) && UsedBy(known, e.lastUsed)
    requires k < |slots| && slots[k].name == e.name
    ensures LeftOut(slots[k := e], known[e.name := e], capacity, name)
  {
    var slots', i := slots[k := e], IndexOf(slots, name);
    assert slots'[k].name == e.name && (i >= 0 ==> slots'[i].name == name);
  }

  lemma {:induction false} RenewalIsKnown(slots: seq<Entry>, known: map<string, Entry>, k: nat, e: Entry)
    requires DistinctSlots(slots) && CachesKnown(slots, known) && k < |slots| && slots[k].name == e.name
    ensures DistinctSlots(slots[k := e]) && CachesKnown(slots[k := e], known[e.name := e])
  {
  }

  /** Giving a cached name a new time and value. */
  lemma {:induction false} RenewKeepsNewest(slots: seq<Entry>, known: map<string, Entry>, capacity: nat, k: nat, e: Entry)
    requires Newest(slots, known, capacity) && UsedBy(known, e.lastUsed)
    requires k < |slots| && slots[k].name == e.name
    ensures Newest(slots[k := e], known[e.name := e], capacity)
  {
    hide LeftOut, IndexOf, DistinctSlots, CachesKnown, UsedBy;
    RenewalIsKnown(slots, known, k, e);
    var known' := known[e.name := e];
    forall name | name in known' ensures LeftOut(slots[k := e], known', capacity, name) {
      NotKnownNotLeftOut(slots, known, capacity, name);
      LeftOutAfterRenewal(slots, known, capacity, k, e, name);
    }
  }

  lemma {:induction false} NobodyLeftOut(slots: seq<Entry>, known: map<string, Entry>, capacity: nat, e: Entry, name: string)
    requires LeftOut(slots, known, capacity, name) && |slots| < capacity
    ensures LeftOut(slots + [e], known[e.name := e], capacity, name)
  {
    var slots', i := slots + [e], IndexOf(slots, name);
    assert slots'[|slots|].name == e.name && (i >= 0 ==> slots'[i].name == name);
  }

  lemma {:induction false} AdditionIsKnown(slots: seq<Entry>, known: map<string, Entry>, e: Entry)
    requires DistinctSlots(slots) && CachesKnown(slots, known) && IndexOf(slots, e.name) < 0
    ensures DistinctSlots(slots + [e]) && CachesKnown(slots + [e], known[e.name := e])
  {
  }

  lemma {:induction false} FillKeepsNewest(slots: seq<Entry>, known: map<string, Entry>, capacity: nat, e: Entry)
    requires Newest(slots, known, capacity)
    requires |slots| < capacity && IndexOf(slots, e.name) < 0
    ensures Newest(slots + [e], known[e.name := e], capacity)
  {
    hide LeftOut, IndexOf, DistinctSlots, CachesKnown;
    AdditionIsKnown(slots, known, e);
    var known' := known[e.name := e];
    forall name | name in known' ensures LeftOut(slots + [e], known', capacity, name) {
      NotKnownNotLeftOut(slots, known, capacity, name);
      NobodyLeftOut(slots, known, capacity, e, name);
    }
  }

  lemma {:induction false} KeptStaysKnown(slots: seq<Entry>, kept: seq<Entry>, o: nat, known: map<string, Entry>, e: Entry)
    requires WithoutOldest(slots, kept, o) && DistinctSlots(slots) && CachesKnown(slots, known) && IndexOf(slots, e.name) < 0
    ensures DistinctSlots(kept + [e]) && CachesKnown(kept + [e], known[e.name := e])
  {
    hide IndexOf;
    var slots' := kept + [e];
    assert slots'[|kept|] == e && forall j :: 0 <= j < |kept| ==> slots'[j] == kept[j];
  }

  lemma {:induction false} LeftOutStaysOlder(slots: seq<Entry>, kept: seq<Entry>, o: nat, known: map<string, Entry>, e: Entry, name: string)
    requires WithoutOldest(slots, kept, o) && CachesKnown(slots, known) && UsedBy(known, e.lastUsed)
    requires LeftOut(slots, known, |slots|, name)
    ensures LeftOut(kept + [e], known[e.name := e], |slots|, name)
  {
    var slots', i := kept + [e], IndexOf(slots, name);
    if name == e.name {
      assert slots'[|kept|].name == name;
    } else if i >= 0 && i != o {
      assert slots'[if i == |kept| then o else i].name == name;
    }
  }

  lemma {:induction false} EvictKeepsNewest(slots: seq<Entry>, known: map<string, Entry>, capacity: nat, e: Entry)
    requires capacity > 0 && Newest(slots, known, capacity) && UsedBy(known, e.lastUsed)
    requires |slots| == capacity && IndexOf(slots, e.name) < 0
    ensures Newest(Evicted(slots) + [e], known[e.name := e], capacity)
  {
    var kept, o := Evicted(slots), Oldest(slots);
    EvictedIsWithoutOldest(slots);
    hide Evicted, Oldest, LeftOut, IndexOf, DistinctSlots, CachesKnown, UsedBy;
    assert |kept| == |slots| - 1;
    KeptStaysKnown(slots, kept, o, known, e);
    var known' := known[e.name := e];
    forall name | name in known' ensures LeftOut(kept + [e], known', capacity, name) {
      NotKnownNotLeftOut(slots, known, capacity, name);
      LeftOutStaysOlder(slots, kept, o, known, e, name);
    }
  }

  lemma {:induction false} NotKnownNotLeftOut(slots: seq<Entry>, known: map<string, Entry>, capacity: nat, name: string)
    requires Newest(slots, known, capacity)
    ensures LeftOut(slots, known, capacity, name)
  {
  }

  lemma {:induction false} LookupKeepsNewest(slots: seq<Entry>, known: map<string, Entry>, capacity: nat, name: string, now: int)
    requires Newest(slots, known, capacity) && UsedBy(known, now)
    ensures Newest(TouchSlots(slots, name, now), KnownStep(known, slots, LookupOp(name), now), capacity)
  {
    var k := IndexOf(slots, name);
    if k >= 0 {
      assert name in known && known[name] == slots[k];
      hide Newest, IndexOf;
      RenewKeepsNewest(slots, known, capacity, k, slots[k].(lastUsed := now));
    }
  }

  lemma {:induction false} PutKeepsNewest(slots: seq<Entry>, known: map<string, Entry>, capacity: nat, e: Entry)
    requires capacity > 0 && Newest(slots, known, capacity) && UsedBy(known, e.lastUsed)
    ensures Newest(PutSlots(slots, capacity, e.name, e.server, e.lastUsed), known[e.name := e], capacity)
  {
    hide Evicted, Newest, UsedBy;
    var k := IndexOf(slots, e.name);
    if k >= 0 {
      RenewKeepsNewest(slots, known, capacity, k, e);
    } else if |slots| < capacity {
      FillKeepsNewest(slots, known, capacity, e);
    } else {
      NewestFits(slots, known, capacity);
      EvictKeepsNewest(slots, known, capacity, e);
    }
  }

  lemma {:induction false} StepKeepsNewest(slots: seq<Entry>, known: map<string, Entry>, capacity: nat, op: Op, now: int)
    requires capacity > 0 && Newest(slots, known, capacity) && UsedBy(known, now)
    ensures Newest(SlotStep(slots, capacity, op, now), KnownStep(known, slots, op, now), capacity)
    ensures UsedBy(KnownStep(known, slots, op, now), now)
  {
    hide Newest, PutSlots, TouchSlots, IndexOf;
    if op.LookupOp? {
      LookupKeepsNewest(slots, known, capacity, op.name, now);
    } else {
      PutKeepsNewest(slots, known, capacity, Entry(op.name, op.server, now));
    }
  }

  lemma {:induction false} NewestFits(slots: seq<Entry>, known: map<string, Entry>, capacity: nat)
    requires Newest(slots, known, capacity)
    ensures |slots| <= capacity
  {
  }

  /** With a clock that never runs back, equal readings included: the cache holds each name once,
      with its last put value and the time of its last use; a name that was put is left out only
      by a full cache, and then it was used no later than any that is in. */
  lemma {:induction false} CacheKeepsNewest(capacity: nat, ops: seq<Op>, times: seq<int>, n: nat)
    requires capacity > 0 && n <= |ops| == |times| && ClockSteady(times)
    ensures Newest(Slots(capacity, ops, times, n), Known(capacity, ops, times, n), capacity)
    ensures n > 0 ==> UsedBy(Known(capacity, ops, times, n), times[n - 1])
  {
    if n > 0 {
      CacheKeepsNewest(capacity, ops, times, n - 1);
      hide Newest, SlotStep, KnownStep;
      var slots, known := Slots(capacity, ops, times, n - 1), Known(capacity, ops, times, n - 1);
      assert UsedBy(known, times[n - 1]) by {
        assert n > 1 ==> times[n - 2] <= times[n - 1];
      }
      StepKeepsNewest(slots, known, capacity, ops[n - 1], times[n - 1]);
    }
  }

  lemma {:induction false} KnownStepHolds(known: map<string, Entry>, slots: seq<Entry>, op: Op, now: int, name: string)
    ensures var known' := KnownStep(known, slots, op, now);
            if op.PutOp? && op.name == name then name in known' && known'[name].server == op.server
            else (name in known' <==> name in known) && (name in known ==> known'[name].server == known[name].server)
  {
  }

  /** What is known are the names put, with the values last put, whatever the clock reads. */
  lemma {:induction false} KnownHoldsLastPut(capacity: nat, ops: seq<Op>, times: seq<int>, n: nat, name: string)
    requires capacity > 0 && n <= |ops| == |times|
    ensures var known := Known(capacity, ops, times, n);
            LastPut(ops, n, name) == if name in known then Some(known[name].server) else None
  {
    hide IndexOf, KnownStep, SlotStep;
    if n > 0 {
      KnownHoldsLastPut(capacity, ops, times, n - 1, name);
      KnownStepHolds(Known(capacity, ops, times, n - 1), Slots(capacity, ops, times, n - 1), ops[n - 1], times[n - 1], name);
    }
  }

  /** So a hit always answers the last put value, and a miss on a name that was put means that
      the cache is full of names used no earlier. */
  lemma {:induction false} SteadyLookupAnswers(capacity: nat, ops: seq<Op>, times: seq<int>, n: nat, name: string)
    requires capacity > 0 && n <= |ops| == |times| && ClockSteady(times)
    ensures var slots, known := Slots(capacity, ops, times, n), Known(capacity, ops, times, n);
            var k := IndexOf(slots, name);
            && (k >= 0 ==> Some(slots[k].server) == LastPut(ops, n, name))
            && (k < 0 && LastPut(ops, n, name).Some? ==>
                  && name in known && |slots| == capacity
                  && forall j :: 0 <= j < |slots| ==> known[name].lastUsed <= slots[j].lastUsed)
  {
    CacheKeepsNewest(capacity, ops, times, n);
    KnownHoldsLastPut(capacity, ops, times, n, name);
    var slots, known := Slots(capacity, ops, times, n), Known(capacity, ops, times, n);
    assert name in known ==> LeftOut(slots, known, capacity, name);
  }
}
