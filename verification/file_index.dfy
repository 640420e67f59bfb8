/** The name manager's file table: slots in an array, threaded into hash chains by index, with
    removal that moves the last slot into the hole. It refines a finite map from names. */
module FileIndex {
  const WordSize := 0x1_0000_0000_0000_0000

  function HashFrom(hash: nat, name: string): nat
    decreases |name|
  {
    if name == "" then hash else HashFrom((hash * 33 + name[0] as int) % WordSize, name[1..])
  }

  function Hash(name: string): nat {
    HashFrom(5381, name)
  }

  function BucketOf(name: string, count: nat): (b: nat)
    requires count > 0
    ensures b < count
  {
    Hash(name) % count
  }

  datatype Slot<V> = Slot(name: string, entry: V, next: int)

  // ------------------------------------------------------- chains, as plain values

  function Link(chain: seq<int>, k: nat): int {
    if k < |chain| then chain[k] else -1
  }

  /** `chain` is what following the links from `head` visits; it never visits a slot twice. */
  ghost predicate Chain(next: seq<int>, head: int, chain: seq<int>) {
    && head == Link(chain, 0)
    && (forall k :: 0 <= k < |chain| ==> 0 <= chain[k] < |next|)
    && (forall k {:trigger next[chain[k]]} :: 0 <= k < |chain| ==> next[chain[k]] == Link(chain, k + 1))
    && (forall j, k :: 0 <= j < k < |chain| ==> chain[j] != chain[k])
  }

  ghost predicate Chained(next: seq<int>, buckets: seq<int>, chains: seq<seq<int>>) {
    |buckets| == |chains| && forall b :: 0 <= b < |chains| ==> Chain(next, buckets[b], chains[b])
  }

  /** Only live slots are visited, each in its home bucket. */
  ghost predicate AtHome(home: seq<nat>, chains: seq<seq<int>>, live: set<int>) {
    forall b, k :: 0 <= b < |chains| && 0 <= k < |chains[b]| ==>
      chains[b][k] in live && 0 <= chains[b][k] < |home| && home[chains[b][k]] == b
  }

  /** Every live slot is visited. */
  ghost predicate Covered(home: seq<nat>, chains: seq<seq<int>>, live: set<int>) {
    forall x :: x in live ==> 0 <= x < |home| && home[x] < |chains| && x in chains[home[x]]
  }

  /** Bucket by bucket the chains visit exactly the live slots of that hash, once each. */
  ghost predicate Linked(next: seq<int>, home: seq<nat>, buckets: seq<int>, chains: seq<seq<int>>, live: set<int>) {
    && |next| == |home| && |chains| > 0
    && Chained(next, buckets, chains) && AtHome(home, chains, live) && Covered(home, chains, live)
  }

  /** A chain that does not visit a slot does not see its link change. */
  lemma {:induction false} ChainElsewhere(next: seq<int>, head: int, chain: seq<int>, x: int, link: int)
    requires Chain(next, head, chain) && 0 <= x < |next| && x !in chain
    ensures Chain(next[x := link], head, chain)
  {
    forall k | 0 <= k < |chain| ensures next[x := link][chain[k]] == Link(chain, k + 1) {
      assert chain[k] in chain;
    }
  }

  lemma {:induction false} ChainFrontLink(next: seq<int>, head: int, chain: seq<int>, x: int, k: nat)
    requires Chain(next, head, chain) && 0 <= x < |next| && next[x] == head && k <= |chain|
    ensures var chain' := [x] + chain;
            0 <= chain'[k] < |next| && next[chain'[k]] == Link(chain', k + 1)
  {
    if k > 0 {
      assert ([x] + chain)[k] == chain[k - 1];
      assert next[chain[k - 1]] == Link(chain, k);
    }
  }

  lemma {:induction false} ChainFront(next: seq<int>, head: int, chain: seq<int>, x: int)
    requires Chain(next, head, chain) && 0 <= x < |next| && x !in chain
    ensures Chain(next[x := head], x, [x] + chain)
  {
    ChainElsewhere(next, head, chain, x, head);
    var next', chain' := next[x := head], [x] + chain;
    assert forall k :: 0 <= k < |chain| ==> chain'[k + 1] == chain[k] && chain[k] in chain;
    forall k | 0 <= k < |chain'| ensures 0 <= chain'[k] < |next'| && next'[chain'[k]] == Link(chain', k + 1) {
      ChainFrontLink(next', head, chain, x, k);
    }
    FrontIsNew(chain, x);
  }

  lemma {:induction false} FrontIsNew(chain: seq<int>, x: int)
    requires x !in chain && forall j, k :: 0 <= j < k < |chain| ==> chain[j] != chain[k]
    ensures var chain' := [x] + chain;
            forall j, k :: 0 <= j < k < |chain'| ==> chain'[j] != chain'[k]
  {
    assert forall k :: 0 <= k < |chain| ==> chain[k] in chain;
  }

  lemma {:induction false} LinkFront(next: seq<int>, home: seq<nat>, buckets: seq<int>, chains: seq<seq<int>>, live: set<int>, x: int)
    requires Linked(next, home, buckets, chains, live)
    requires 0 <= x < |home| && home[x] < |chains| && x !in live
    ensures var b := home[x];
            Linked(next[x := buckets[b]], home, buckets[b := x], chains[b := [x] + chains[b]], live + {x})
  {
    var b := home[x];
    var chains' := chains[b := [x] + chains[b]];
    forall c | 0 <= c < |chains| ensures Chain(next[x := buckets[b]], buckets[b := x][c], chains'[c]) {
      assert x !in chains[c] && Chain(next, buckets[c], chains[c]);
      if c == b {
        ChainFront(next, buckets[b], chains[b], x);
      } else {
        ChainElsewhere(next, buckets[c], chains[c], x, buckets[b]);
      }
    }
    assert AtHome(home, chains', live + {x}) by {
      forall c, k | 0 <= c < |chains'| && 0 <= k < |chains'[c]|
        ensures chains'[c][k] in live + {x} && 0 <= chains'[c][k] < |home| && home[chains'[c][k]] == c
      {
        if c == b && k > 0 { assert chains'[c][k] == chains[c][k - 1]; }
      }
    }
  }

  function Dropped(chain: seq<int>, k: nat): (r: seq<int>)
    requires k < |chain|
    ensures |r| == |chain| - 1
    ensures forall j :: 0 <= j < |r| ==> r[j] == chain[if j < k then j else j + 1]
  {
    chain[..k] + chain[k + 1..]
  }

  /** Taking position `k` out of a chain: the head or the slot before it gets its link. */
  lemma {:induction false} ChainAround(next: seq<int>, head: int, chain: seq<int>, k: nat)
    requires Chain(next, head, chain) && k < |chain|
    ensures var x := chain[k];
            if k == 0 then Chain(next, next[x], Dropped(chain, k))
            else Chain(next[chain[k - 1] := next[x]], head, Dropped(chain, k))
  {
    var chain' := Dropped(chain, k);
    var next' := if k == 0 then next else next[chain[k - 1] := next[chain[k]]];
    forall j | 0 <= j < |chain'| ensures 0 <= chain'[j] < |next'| && next'[chain'[j]] == Link(chain', j + 1) {
      var i := if j < k then j else j + 1;
      assert next[chain[i]] == Link(chain, i + 1) && next[chain[k]] == Link(chain, k + 1);
      assert k > 0 && i != k - 1 ==> chain[i] != chain[k - 1];
    }
  }

  lemma {:induction false} InChain(chains: seq<seq<int>>, home: seq<nat>, live: set<int>, b: nat, c: nat, k: nat)
    requires AtHome(home, chains, live) && b < |chains| && c < |chains| && b != c && k < |chains[b]|
    ensures chains[b][k] !in chains[c]
  {
    forall j | 0 <= j < |chains[c]| ensures chains[c][j] != chains[b][k] {
      assert home[chains[c][j]] == c && home[chains[b][k]] == b;
    }
  }

  lemma {:induction false} LinkAroundChains(next: seq<int>, home: seq<nat>, buckets: seq<int>, chains: seq<seq<int>>, live: set<int>, b: nat, k: nat)
    requires Linked(next, home, buckets, chains, live) && b < |chains| && k < |chains[b]|
    ensures var x, chains' := chains[b][k], chains[b := Dropped(chains[b], k)];
            && 0 <= x < |next|
            && if k == 0 then Chained(next, buckets[b := next[x]], chains')
               else 0 <= chains[b][k - 1] < |next| && Chained(next[chains[b][k - 1] := next[x]], buckets, chains')
  {
    assert Chain(next, buckets[b], chains[b]);
    ChainAround(next, buckets[b], chains[b], k);
    var x := chains[b][k];
    if k > 0 {
      forall c | 0 <= c < |chains| && c != b ensures Chain(next[chains[b][k - 1] := next[x]], buckets[c], chains[c]) {
        InChain(chains, home, live, b, c, k - 1);
        ChainElsewhere(next, buckets[c], chains[c], chains[b][k - 1], next[x]);
      }
    }
  }

  lemma {:induction false} DropLive(home: seq<nat>, chains: seq<seq<int>>, live: set<int>, b: nat, k: nat)
    requires AtHome(home, chains, live) && Covered(home, chains, live) && b < |chains| && k < |chains[b]|
    requires forall j :: 0 <= j < |chains[b]| && j != k ==> chains[b][j] != chains[b][k]
    ensures var chains' := chains[b := Dropped(chains[b], k)];
            AtHome(home, chains', live - {chains[b][k]}) && Covered(home, chains', live - {chains[b][k]})
  {
    var chain, x := chains[b], chains[b][k];
    var chains' := chains[b := Dropped(chain, k)];
    forall c, j | 0 <= c < |chains'| && 0 <= j < |chains'[c]|
      ensures chains'[c][j] in live - {x} && 0 <= chains'[c][j] < |home| && home[chains'[c][j]] == c
    {
      var i := if c == b && j >= k then j + 1 else j;
      assert chains'[c][j] == chains[c][i] && chains[c][i] in live;
      assert c != b ==> home[chains[c][i]] != home[x];
    }
    forall y | y in live - {x} ensures y in chains'[home[y]] {
      var i :| 0 <= i < |chains[home[y]]| && chains[home[y]][i] == y;
      if home[y] == b {
        assert chains'[b][if i < k then i else i - 1] == y;
      }
    }
  }

  /** Unlinking position `k` of bucket `b`, by the head or by the slot before it. */
  lemma {:induction false} LinkAround(next: seq<int>, home: seq<nat>, buckets: seq<int>, chains: seq<seq<int>>, live: set<int>, b: nat, k: nat)
    requires Linked(next, home, buckets, chains, live) && b < |chains| && k < |chains[b]|
    ensures var x, chains' := chains[b][k], chains[b := Dropped(chains[b], k)];
            && 0 <= x < |next|
            && if k == 0 then Linked(next, home, buckets[b := next[x]], chains', live - {x})
               else 0 <= chains[b][k - 1] < |next|
                    && Linked(next[chains[b][k - 1] := next[x]], home, buckets, chains', live - {x})
  {
    LinkAroundChains(next, home, buckets, chains, live, b, k);
    assert Chain(next, buckets[b], chains[b]);
    DropLive(home, chains, live, b, k);
  }

  /** A slot outside the chains may be overwritten. */
  lemma {:induction false} OverwriteFree(next: seq<int>, home: seq<nat>, buckets: seq<int>, chains: seq<seq<int>>, live: set<int>, x: int, link: int, h: nat)
    requires Linked(next, home, buckets, chains, live) && 0 <= x < |next| && x !in live
    ensures Linked(next[x := link], home[x := h], buckets, chains, live)
  {
    forall b | 0 <= b < |chains| ensures Chain(next[x := link], buckets[b], chains[b]) {
      assert x !in chains[b];
      ChainElsewhere(next, buckets[b], chains[b], x, link);
    }
  }

  // ------------------------------------------------------ slots, as plain values

  ghost function Nexts<V>(files: seq<Slot<V>>): (next: seq<int>)
    ensures |next| == |files| && forall i :: 0 <= i < |files| ==> next[i] == files[i].next
  {
    seq(|files|, i requires 0 <= i < |files| => files[i].next)
  }

  ghost function Homes<V>(files: seq<Slot<V>>, bucketCount: nat): (home: seq<nat>)
    requires bucketCount > 0
    ensures |home| == |files| && forall i :: 0 <= i < |files| ==> home[i] == BucketOf(files[i].name, bucketCount)
  {
    seq(|files|, i requires 0 <= i < |files| => BucketOf(files[i].name, bucketCount))
  }

  lemma {:induction false} Relink<V>(files: seq<Slot<V>>, bucketCount: nat, x: nat, slot: Slot<V>)
    requires x < |files| && bucketCount > 0
    ensures Nexts(files[x := slot]) == Nexts(files)[x := slot.next]
    ensures Homes(files[x := slot], bucketCount) == Homes(files, bucketCount)[x := BucketOf(slot.name, bucketCount)]
    ensures slot.name == files[x].name ==> Homes(files[x := slot], bucketCount) == Homes(files, bucketCount)
  {
  }

  ghost predicate SameEntries<V>(a: seq<Slot<V>>, b: seq<Slot<V>>) {
    |a| == |b| && forall i :: 0 <= i < |a| ==> a[i].name == b[i].name && a[i].entry == b[i].entry
  }

  /** Slot `index` now has the entry of slot `last`; all others have kept theirs. */
  ghost predicate Moved<V>(before: seq<Slot<V>>, after: seq<Slot<V>>, index: nat, last: nat) {
    && index < |before| && last < |before| && |after| == |before|
    && forall i {:trigger after[i]} :: 0 <= i < |after| ==>
         var from := if i == index then last else i;
         after[i].name == before[from].name && after[i].entry == before[from].entry
  }

  /** The last slot has moved to `index`, unless it was that slot itself. */
  ghost predicate Replaced<V>(before: seq<Slot<V>>, after: seq<Slot<V>>, index: nat, last: nat) {
    if index < last then Moved(before, after, index, last) else SameEntries(after, before)
  }

  ghost predicate DistinctNames<V>(files: seq<Slot<V>>, n: nat)
    requires n <= |files|
  {
    forall x, y :: 0 <= x < y < n ==> files[x].name != files[y].name
  }

  ghost predicate Stores<V>(files: seq<Slot<V>>, n: nat, name: string)
    requires n <= |files|
  {
    exists x :: 0 <= x < n && files[x].name == name
  }

  /** The map that the first `n` slots spell out. */
  ghost predicate Spells<V>(files: seq<Slot<V>>, n: nat, m: map<string, V>)
    requires n <= |files|
  {
    && (forall x :: 0 <= x < n ==> files[x].name in m && m[files[x].name] == files[x].entry)
    && (forall name :: name in m ==> Stores(files, n, name))
    && DistinctNames(files, n)
  }

  lemma {:induction false} SpellsAdded<V>(fs: seq<Slot<V>>, after: seq<Slot<V>>, n: nat, m: map<string, V>, name: string, entry: V)
    requires n < |fs| && Spells(fs, n, m) && name !in m
    requires SameEntries(after, fs[n := Slot(name, entry, -1)])
    ensures Spells(after, n + 1, m[name := entry])
  {
    forall x | 0 <= x < n ensures after[x].name == fs[x].name && after[x].entry == fs[x].entry {}
    var m' := m[name := entry];
    forall other | other in m' ensures Stores(after, n + 1, other) {
      if other == name {
        assert after[n].name == name;
      } else {
        assert Stores(fs, n, other);
        var x :| 0 <= x < n && fs[x].name == other;
        assert after[x].name == other;
      }
    }
  }

  lemma {:induction false} SpellsRemoved<V>(fs: seq<Slot<V>>, after: seq<Slot<V>>, n: nat, index: nat, m: map<string, V>)
    requires index < n <= |fs| == |after| && Spells(fs, n, m)
    requires index < n - 1 ==> Moved(fs, after, index, n - 1)
    requires index == n - 1 ==> SameEntries(after, fs)
    ensures Spells(after, n - 1, m - {fs[index].name})
  {
    forall i | 0 <= i < n - 1
      ensures var from := if i == index then n - 1 else i;
              after[i].name == fs[from].name && after[i].entry == fs[from].entry
    {}
    var m' := m - {fs[index].name};
    forall other | other in m' ensures Stores(after, n - 1, other) {
      assert Stores(fs, n, other);
      var from :| 0 <= from < n && fs[from].name == other;
      assert after[if from == n - 1 then index else from].name == other;
    }
  }

  ghost function Minus<V>(m: map<string, V>, name: string): map<string, V> {
    m - {name}
  }

  ghost function Below(n: nat): (live: set<int>)
    ensures forall i :: i in live <==> 0 <= i < n
  {
    if n == 0 then {} else Below(n - 1) + {n - 1}
  }

  lemma {:induction false} BelowWithout(n: nat, index: nat)
    requires index < n
    ensures if index == n - 1 then Below(n) - {index} == Below(n - 1)
            else Below(n) - {index} - {n - 1} + {index} == Below(n - 1)
  {
  }

  lemma {:induction false} SameMoved<V>(before: seq<Slot<V>>, once: seq<Slot<V>>, twice: seq<Slot<V>>, after: seq<Slot<V>>, index: nat, last: nat)
    requires index < |before| && last < |before|
    requires SameEntries(once, before) && SameEntries(twice, once)
    requires SameEntries(after, twice[index := twice[last]])
    ensures Moved(before, after, index, last)
  {
  }

  // ------------------------------------------------------------------- the table

  class Table<V(0)> {
    const files: array<Slot<V>>
    const buckets: array<int>
    var count: nat
    ghost var chains: seq<seq<int>>
    ghost var contents: map<string, V>

    ghost predicate Threaded(live: set<int>)
      reads this`count, this`chains, files, buckets
    {
      && buckets.Length == |chains| > 0 && count <= files.Length && live <= Below(count)
      && Linked(Nexts(files[..]), Homes(files[..], buckets.Length), buckets[..], chains, live)
    }

    ghost predicate Valid()
      reads this, files, buckets
    {
      Threaded(Below(count)) && Spells(files[..], count, contents)
    }

    constructor (capacity: nat, bucketCount: nat, filler: V)
      requires bucketCount > 0
      ensures Valid() && contents == map[] && count == 0
      ensures fresh(files) && fresh(buckets) && files.Length == capacity && buckets.Length == bucketCount
    {
      files := new Slot<V>[capacity](_ => Slot("", filler, -1));
      buckets := new int[bucketCount](_ => -1);
      count := 0;
      chains := seq(bucketCount, _ => []);
      contents := map[];
      new;
      forall b | 0 <= b < bucketCount ensures Chain(Nexts(files[..]), buckets[..][b], chains[b]) {}
    }

    method HashName(name: string) returns (hash: nat)
      ensures hash == Hash(name)
    {
      hash := 5381;
      var p := 0;
      while p < |name|
        invariant p <= |name| && HashFrom(hash, name[p..]) == Hash(name)
      {
        assert name[p..][1..] == name[p + 1..];
        hash := (hash * 33 + name[p] as int) % WordSize;
        p := p + 1;
      }
      assert name[p..] == "";
    }

    method PickBucket(name: string) returns (bucket: nat)
      requires buckets.Length > 0
      ensures bucket == BucketOf(name, buckets.Length)
    {
      var hash := HashName(name);
      bucket := hash % buckets.Length;
    }

    lemma InHomeChain(name: string)
      requires Valid()
      ensures var b := BucketOf(name, buckets.Length);
              && Chain(Nexts(files[..]), buckets[b], chains[b])
              && (forall j :: 0 <= j < |chains[b]| ==> 0 <= chains[b][j] < count)
              && (forall x :: 0 <= x < count && files[x].name == name ==> x in chains[b])
    {
      var b := BucketOf(name, buckets.Length);
      assert Chain(Nexts(files[..]), buckets[..][b], chains[b]);
      forall j | 0 <= j < |chains[b]| ensures 0 <= chains[b][j] < count {
        assert chains[b][j] in Below(count);
      }
      var home := Homes(files[..], buckets.Length);
      forall x | 0 <= x < count && files[x].name == name ensures x in chains[BucketOf(name, buckets.Length)] {
        assert x in Below(count) && x in chains[home[x]];
      }
    }

    /** Walks one chain from its head; an acyclic chain ends. */
    method WalkChain(bucket: nat, name: string, ghost chain: seq<int>) returns (index: int)
      requires bucket < buckets.Length && Chain(Nexts(files[..]), buckets[bucket], chain)
      ensures index < 0 ==> forall j :: 0 <= j < |chain| ==> files[chain[j]].name != name
      ensures index >= 0 ==> index in chain && index < files.Length && files[index].name == name
    {
      ghost var next, k := Nexts(files[..]), 0;
      index := buckets[bucket];
      while index >= 0
        invariant 0 <= k <= |chain| && index == Link(chain, k)
        invariant forall j :: 0 <= j < k ==> files[chain[j]].name != name
        decreases |chain| - k
      {
        assert index == chain[k];
        if files[index].name == name {
          return;
        }
        assert next[chain[k]] == Link(chain, k + 1);
        index := files[index].next;
        k := k + 1;
      }
    }

    /** Terminates and finds the name exactly when it is stored. */
    method FindIndex(name: string) returns (index: int)
      requires Valid()
      ensures index < 0 <==> name !in contents
      ensures index >= 0 ==> index < count && files[index].name == name && files[index].entry == contents[name]
    {
      hide Linked;
      var bucket := PickBucket(name);
      InHomeChain(name);
      hide Chain;
      index := WalkChain(bucket, name, chains[bucket]);
      assert index < 0 ==> !Stores(files[..], count, name);
    }

    /** Puts a slot that is in no chain at the front of its bucket's chain. */
    method HashInsert(index: nat, ghost live: set<int>)
      requires Threaded(live) && index < count && index !in live
      modifies this`chains, files, buckets
      ensures Threaded(live + {index})
      ensures SameEntries(files[..], old(files[..]))
    {
      hide Linked;
      var bucket := PickBucket(files[index].name);
      ghost var fs, bs, slot := files[..], buckets[..], files[index].(next := buckets[bucket]);
      LinkFront(Nexts(fs), Homes(fs, buckets.Length), bs, chains, live, index);
      Relink(fs, buckets.Length, index, slot);
      chains := chains[bucket := [index as int] + chains[bucket]];
      files[index] := files[index].(next := buckets[bucket]);
      buckets[bucket] := index;
      assert files[..] == fs[index := slot];
      assert buckets[..] == bs[bucket := index];
    }

    /** Makes the link to position `k` of a chain point past the slot there. */
    method Unlink(index: nat, before: int, bucket: nat, ghost k: nat, ghost live: set<int>)
      requires Threaded(live) && bucket < buckets.Length
      requires k < |chains[bucket]| && chains[bucket][k] == index
      requires before == if k == 0 then -1 else chains[bucket][k - 1]
      requires index < files.Length && before < files.Length && (k > 0 ==> before >= 0)
      modifies this`chains, files, buckets
      ensures Threaded(live - {index})
      ensures SameEntries(files[..], old(files[..]))
    {
      hide Linked;
      ghost var fs, bs := files[..], buckets[..];
      LinkAround(Nexts(fs), Homes(fs, buckets.Length), bs, chains, live, bucket, k);
      chains := chains[bucket := Dropped(chains[bucket], k)];
      if before < 0 {
        buckets[bucket] := files[index].next;
        assert buckets[..] == bs[bucket := Nexts(fs)[index]];
      } else {
        ghost var slot := fs[before].(next := fs[index].next);
        Relink(fs, buckets.Length, before, slot);
        files[before] := files[before].(next := files[index].next);
        assert files[..] == fs[before := slot];
      }
    }

    /** Follows the links until one points at the slot, and unlinks it there. */
    method HashRemove(index: nat, ghost live: set<int>)
      requires Threaded(live) && index in live
      modifies this`chains, files, buckets
      ensures Threaded(live - {index})
      ensures SameEntries(files[..], old(files[..]))
    {
      var bucket := PickBucket(files[index].name);
      ghost var next, chain, k := Nexts(files[..]), chains[bucket], 0;
      ghost var position := ChainPosition(index, bucket, live);
      assert Chain(next, buckets[bucket], chain);
      var before, link := -1, buckets[bucket];
      while link >= 0
        modifies {}
        invariant 0 <= k <= position && link == Link(chain, k)
        invariant before == if k == 0 then -1 else chain[k - 1]
        decreases |chain| - k
      {
        if link == index {
          break;
        }
        assert next[chain[k]] == Link(chain, k + 1);
        before, link := link, files[link].next;
        k := k + 1;
      }
      if link >= 0 {
        Unlink(index, before, bucket, k, live);
      }
    }

    lemma ChainPosition(index: nat, bucket: nat, live: set<int>) returns (position: nat)
      requires Threaded(live) && index in live && bucket == BucketOf(files[index].name, buckets.Length)
      ensures position < |chains[bucket]| && chains[bucket][position] == index
      ensures forall j :: 0 <= j < |chains[bucket]| ==> 0 <= chains[bucket][j] < files.Length
    {
      var home := Homes(files[..], buckets.Length);
      assert Chain(Nexts(files[..]), buckets[..][bucket], chains[bucket]);
      assert home[index] == bucket && index in chains[home[index]];
      position :| position < |chains[bucket]| && chains[bucket][position] == index;
    }

    /** Writes a slot that is in no chain. */
    method WriteFree(index: nat, slot: Slot<V>, ghost live: set<int>)
      requires Threaded(live) && index < files.Length && index !in live
      modifies files
      ensures Threaded(live)
      ensures files[..] == old(files[..])[index := slot]
    {
      hide Linked;
      ghost var fs := files[..];
      OverwriteFree(Nexts(fs), Homes(fs, buckets.Length), buckets[..], chains, live, index,
                    slot.next, BucketOf(slot.name, buckets.Length));
      Relink(fs, buckets.Length, index, slot);
      files[index] := slot;
      assert files[..] == fs[index := slot];
    }

    /** Fills the next free slot and threads it. */
    method AddSlot(name: string, entry: V)
      requires Threaded(Below(count)) && count < files.Length
      modifies this`count, this`chains, files, buckets
      ensures count == old(count) + 1 && Threaded(Below(count))
      ensures SameEntries(files[..], old(files[..])[old(count) := Slot(name, entry, -1)])
    {
      hide Linked;
      ghost var live := Below(count);
      WriteFree(count, Slot(name, entry, -1), live);
      count := count + 1;
      HashInsert(count - 1, live);
      assert Below(count) == live + {count - 1};
    }

    /** Puts the added slot's name into the map that the table stands for. */
    ghost method Learn(before: seq<Slot<V>>, name: string, entry: V)
      requires Threaded(Below(count)) && 0 < count <= |before| == files.Length
      requires Spells(before, count - 1, contents) && name !in contents
      requires SameEntries(files[..], before[count - 1 := Slot(name, entry, -1)])
      modifies this`contents
      ensures Valid() && contents == old(contents)[name := entry]
    {
      hide Linked, Spells, SameEntries, Threaded;
      SpellsAdded(before, files[..], count - 1, contents, name, entry);
      contents := contents[name := entry];
    }

    /** Map update on a new name; refused when the table is full or the name is taken. */
    method Add(name: string, entry: V) returns (ok: bool)
      requires Valid()
      modifies this, files, buckets
      ensures Valid()
      ensures ok <==> old(count) < files.Length && name !in old(contents)
      ensures contents == if ok then old(contents)[name := entry] else old(contents)
      ensures count == if ok then old(count) + 1 else old(count)
    {
      hide Linked, Spells, SameEntries, Threaded;
      if count >= files.Length {
        return false;
      }
      var existing := FindIndex(name);
      if existing >= 0 {
        return false;
      }
      ghost var before := files[..];
      AddSlot(name, entry);
      Learn(before, name, entry);
      return true;
    }

    /** Moves the last slot into the hole at `index`. Neither is in a chain at that moment. */
    method FillHole(index: nat, ghost live: set<int>)
      requires Threaded(live) && index < count - 1 && index !in live && count - 1 !in live
      modifies this`chains, files, buckets
      ensures Threaded(live + {index})
      ensures SameEntries(files[..], old(files[..])[index := old(files[..])[count - 1]])
    {
      hide Linked;
      WriteFree(index, files[count - 1], live);
      HashInsert(index, live);
    }

    /** Unthreads the slot and keeps the table dense: the last slot moves into the hole. */
    method RemoveSlot(index: nat, ghost before: seq<Slot<V>>, ghost last: nat)
      requires Threaded(Below(count)) && index < count
      requires before == files[..] && last + 1 == count
      modifies this`count, this`chains, files, buckets
      ensures count == last && Threaded(Below(last)) && Replaced(before, files[..], index, last)
    {
      hide Linked;
      ghost var all := Below(count);
      BelowWithout(count, index);
      HashRemove(index, all);
      if index != count - 1 {
        ghost var once := files[..];
        HashRemove(count - 1, all - {index});
        ghost var twice := files[..];
        FillHole(index, all - {index} - {count - 1});
        SameMoved(before, once, twice, files[..], index, last);
      }
      ghost var after := files[..];
      count := count - 1;
      assert files[..] == after;
    }

    /** Takes the removed slot's name out of the map that the table stands for. */
    ghost method Forget(before: seq<Slot<V>>, index: nat, last: nat, name: string)
      requires Threaded(Below(last)) && count == last && index <= last < |before| == files.Length
      requires Spells(before, last + 1, contents) && before[index].name == name
      requires Replaced(before, files[..], index, last)
      modifies this`contents
      ensures Valid() && contents == Minus(old(contents), name)
    {
      hide Linked, Spells, Moved, SameEntries, Threaded;
      SpellsRemoved(before, files[..], last + 1, index, contents);
      contents := Minus(contents, name);
    }

    method RemoveAt(index: nat, ghost name: string)
      requires Valid() && index < count && files[index].name == name
      modifies this, files, buckets
      ensures Valid() && count == old(count) - 1
      ensures contents == Minus(old(contents), name)
    {
      assert count <= files.Length;
      hide Linked, Spells, Replaced, Threaded, Minus;
      ghost var before, last := files[..], count - 1;
      assert before[index].name == name;
      assert Spells(before, last + 1, contents);
      RemoveSlot(index, before, last);
      Forget(before, index, last, name);
    }

    /** Map delete: every other entry stays as it is. */
    method Remove(name: string) returns (ok: bool)
      requires Valid()
      modifies this, files, buckets
      ensures Valid()
      ensures ok <==> name in old(contents)
      ensures contents == old(contents) - {name}
      ensures count == if ok then old(count) - 1 else old(count)
    {
      hide Linked;
      var index := FindIndex(name);
      if index < 0 {
        assert contents - {name} == contents;
        return false;
      }
      RemoveAt(index, name);
      return true;
    }
  }
}
