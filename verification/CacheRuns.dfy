/** What runs of cache operations come to, computed from the operations alone: which use of an entry was
    the last, which value it holds, and when a value or a reservation is taken. */
module CacheRuns {
  import opened Types
  import opened Sums
  import opened CacheModel

  // ----------------------------------------------------------------------- recency

  /** The operation uses the entry: a lookup that hits, or a store that is admitted. */
  ghost predicate Uses(s: State, op: Op, k: Key) {
    match op
    case Lookup(j) => j == k && k in s.items
    case Store(j, v) => j == k && Admits(s, k, |v|)
    case _ => false
  }

  /** The number of the operation that used the key last; 0 if none did. */
  ghost function LastUse(s: State, ops: seq<Op>, k: Key): nat {
    if ops == [] then 0
    else
      var front := ops[..|ops| - 1];
      if Uses(Run(s, front), ops[|ops| - 1], k) then |ops| else LastUse(s, front, k)
  }

  ghost function Age(s: State, ops: seq<Op>): Key -> nat {
    (k: Key) => LastUse(s, ops, k)
  }

  /** From the front to the back of the list the ranks fall. */
  ghost predicate Falling(order: seq<Key>, rank: Key -> nat) {
    forall i, j :: 0 <= i < j < |order| ==> rank(order[i]) > rank(order[j])
  }

  lemma {:induction false} FallingWithout(order: seq<Key>, gone: set<Key>, rank: Key -> nat)
    requires Falling(order, rank)
    ensures Falling(Without(order, gone), rank)
  {
    if order != [] {
      FallingWithout(order[1..], gone, rank);
      WithoutMembers(order[1..], gone);
      var rest := Without(order[1..], gone);
      forall j | 0 <= j < |rest| ensures rank(order[0]) > rank(rest[j]) {
        assert rest[j] in rest;
      }
    }
  }

  lemma FallingFront(order: seq<Key>, k: Key, rank: Key -> nat, next: Key -> nat)
    requires Falling(order, rank) && (forall j :: j in order && j != k ==> next(j) == rank(j) < next(k))
    ensures Falling([k] + Without(order, {k}), next)
  {
    var rest := Without(order, {k});
    FallingWithout(order, {k}, rank);
    WithoutMembers(order, {k});
    assert forall j :: 0 <= j < |rest| ==> rest[j] in rest;
  }

  lemma {:induction false} LastUseBound(s: State, ops: seq<Op>, k: Key)
    ensures LastUse(s, ops, k) <= |ops|
  {
    if ops != [] {
      LastUseBound(s, ops[..|ops| - 1], k);
    }
  }

  /** What an eviction pass leaves of the list. */
  lemma EvictOrder(s: State, keep: Option<Key>) returns (gone: set<Key>)
    requires Sound(s)
    ensures Evict(s, keep).lru == Without(s.lru, gone)
  {
    var n := EvictRun(s, keep);
    if s.used <= HighWater(s.capacity) {
      gone := {};
      WithoutNothing(s.lru, {});
    } else {
      gone := Elements(Victims(s.lru, Shield(s, keep))[..n]);
    }
  }

  lemma PutOrder(s: State, k: Key, v: Bytes) returns (gone: set<Key>)
    requires Inv(s) && Admits(s, k, |v|)
    ensures Put(s, k, v).lru == Without([k] + Without(s.lru, {k}), gone)
  {
    InsertSound(s, k, v);
    gone := EvictOrder(Insert(s, k, v), Some(k));
    InsertOrder(s, k, v);
    var e := Evict(Insert(s, k, v), Some(k));
    if e.used > e.capacity {
      EvictSurvivors(Insert(s, k, v), Some(k));
      WithoutTwice([k] + Without(s.lru, {k}), gone, {k});
      gone := gone + {k};
    }
  }

  lemma InsertOrder(s: State, k: Key, v: Bytes)
    requires Bijection(s.lru, s.items)
    ensures Insert(s, k, v).lru == [k] + Without(s.lru, {k})
  {
    if k !in s.items {
      WithoutNothing(s.lru, {k});
    }
  }

  /** How one operation changes the list: it takes entries out, and a use brings its entry to the front. */
  lemma ApplyOrder(s: State, op: Op) returns (gone: set<Key>)
    requires Inv(s)
    ensures if exists k :: Uses(s, op, k) then Apply(s, op).lru == Without([op.key] + Without(s.lru, {op.key}), gone)
            else Apply(s, op).lru == Without(s.lru, gone)
  {
    gone := {};
    WithoutNothing(s.lru, {});
    match op
    case Lookup(k) =>
      if k in s.items {
        assert Uses(s, op, k);
        WithoutNothing([k] + Without(s.lru, {k}), {});
      }
    case Store(k, v) =>
      if Admits(s, k, |v|) {
        assert Uses(s, op, k);
        gone := PutOrder(s, k, v);
      }
    case Discard(k) =>
      gone := {k};
      if k !in s.items {
        WithoutNothing(s.lru, {k});
      }
    case LegacyPin(k) => PinEffect(s, k, 0, false);
    case SizedPin(k, n) => if n >= 0 { PinEffect(s, k, n, true); }
    case Free(k) =>
      ReleaseSound(s, k);
      gone := EvictOrder(Release(s, k), None);
    case Purge(t) =>
      InvalidateInv(s, t);
      gone := OwnKeys(s.items, t);
  }

  /** In every run an entry nearer the front was used later. */
  lemma {:induction false} FrontUsedLater(capacity: int, ops: seq<Op>)
    ensures Falling(Run(Empty(capacity), ops).lru, Age(Empty(capacity), ops))
  {
    var s0 := Empty(capacity);
    if ops != [] {
      var front, op := ops[..|ops| - 1], ops[|ops| - 1];
      var s := Run(s0, front);
      FrontUsedLater(capacity, front);
      RunInv(capacity, front);
      var gone := ApplyOrder(s, op);
      AgeStep(s0, ops);
      if k :| Uses(s, op, k) {
        FallingFront(s.lru, k, Age(s0, front), Age(s0, ops));
        FallingWithout([k] + Without(s.lru, {k}), gone, Age(s0, ops));
      } else {
        FallingWithout(s.lru, gone, Age(s0, ops));
      }
    }
  }

  lemma AgeStep(s: State, ops: seq<Op>)
    requires ops != []
    ensures var front, op := ops[..|ops| - 1], ops[|ops| - 1];
      forall k :: if Uses(Run(s, front), op, k) then Age(s, ops)(k) == |ops| > Age(s, front)(k)
                  else Age(s, ops)(k) == Age(s, front)(k) < |ops|
  {
    var front := ops[..|ops| - 1];
    forall k: Key ensures LastUse(s, front, k) < |ops| {
      LastUseBound(s, front, k);
    }
  }

  // ---- who is evicted

  /** Candidates come oldest first. */
  ghost predicate Rising(order: seq<Key>, rank: Key -> nat) {
    forall i, j :: 0 <= i < j < |order| ==> rank(order[i]) < rank(order[j])
  }

  lemma {:induction false} VictimsRising(order: seq<Key>, shielded: set<Key>, rank: Key -> nat)
    requires Falling(order, rank)
    ensures Rising(Victims(order, shielded), rank)
  {
    if order != [] {
      var front, last := order[..|order| - 1], order[|order| - 1];
      VictimsRising(front, shielded, rank);
      VictimsMembers(front, shielded);
      var rest := Victims(front, shielded);
      forall j | 0 <= j < |rest| ensures rank(last) < rank(rest[j]) {
        assert rest[j] in rest;
      }
    }
  }

  lemma RisingCut(all: seq<Key>, n: nat, rank: Key -> nat, a: Key, b: Key)
    requires Rising(all, rank) && n <= |all| && a in all[..n] && b in all && b !in all[..n]
    ensures rank(a) < rank(b)
  {
    var i :| 0 <= i < n && all[..n][i] == a;
    var j :| 0 <= j < |all| && all[j] == b;
    assert forall m :: 0 <= m < n ==> all[..n][m] == all[m];
  }

  /** A pass evicts entries that were used before every survivor it could have taken. */
  lemma EvictsOldest(s: State, keep: Option<Key>, rank: Key -> nat, a: Key, b: Key)
    requires Sound(s) && Falling(s.lru, rank)
    requires a in s.items && a !in Evict(s, keep).items && b in Evict(s, keep).items && b !in Shield(s, keep)
    ensures a !in Shield(s, keep) && rank(a) < rank(b)
  {
    var n := EvictRun(s, keep);
    var all := Victims(s.lru, Shield(s, keep));
    VictimsMembers(s.lru, Shield(s, keep));
    VictimsRising(s.lru, Shield(s, keep), rank);
    EvictSurvivors(s, keep);
    RisingCut(all, n, rank, a, b);
  }

  lemma FreeEvictsOldest(s: State, k: Key, rank: Key -> nat, a: Key, b: Key)
    requires Inv(s) && Falling(s.lru, rank) && a in s.items && a !in Unpin(s, k).items
    requires b in Unpin(s, k).items && b !in Unpin(s, k).pinned
    ensures rank(a) < rank(b)
  {
    ReleaseSound(s, k);
    EvictSurvivors(Release(s, k), None);
    EvictsOldest(Release(s, k), None, rank, a, b);
  }

  lemma StoreEvictsOldest(s: State, k: Key, v: Bytes, rank: Key -> nat, a: Key, b: Key)
    requires Inv(s) && Falling(s.lru, rank) && a in s.items && a !in Put(s, k, v).items && a != k
    requires b in Put(s, k, v).items && b !in Put(s, k, v).pinned && b != k
    ensures rank(a) < rank(b)
  {
    var i := Insert(s, k, v);
    InsertSound(s, k, v);
    StoreShed(s, k, v, a, b);
    InsertOrder(s, k, v);
    var next := FrontRank(s.lru, k, rank);
    EvictsOldest(i, Some(k), next, a, b);
  }

  lemma StoreShed(s: State, k: Key, v: Bytes, a: Key, b: Key)
    requires Inv(s) && a in s.items && a !in Put(s, k, v).items && a != k
    requires b in Put(s, k, v).items && b !in Put(s, k, v).pinned && b != k
    ensures var i := Insert(s, k, v);
      a in i.items && a !in Evict(i, Some(k)).items && b in Evict(i, Some(k)).items && b !in Shield(i, Some(k))
  {
    InsertSound(s, k, v);
    InsertFields(s, k, v);
    EvictSurvivors(Insert(s, k, v), Some(k));
  }

  /** Ranks under which an entry brought to the front is the latest. */
  lemma FrontRank(order: seq<Key>, k: Key, rank: Key -> nat) returns (next: Key -> nat)
    requires Falling(order, rank)
    ensures Falling([k] + Without(order, {k}), next) && forall j :: j != k ==> next(j) == rank(j)
  {
    var most := Most(order, rank) + 1;
    next := (j: Key) => if j == k then most else rank(j);
    MostIs(order, rank);
    FallingFront(order, k, rank, next);
  }

  /** In every run, an entry that a store or an unpin throws out was used before every other entry that
      stays without a pin. */
  lemma OldestGoFirst(capacity: int, ops: seq<Op>, op: Op, a: Key, b: Key)
    requires op.Store? || op.Free?
    requires var s, t := Run(Empty(capacity), ops), Apply(Run(Empty(capacity), ops), op);
      && a in s.items && a !in t.items && b in t.items && b !in t.pinned && (op.Store? ==> a != op.key && b != op.key)
    ensures LastUse(Empty(capacity), ops, a) < LastUse(Empty(capacity), ops, b)
  {
    var rank := Age(Empty(capacity), ops);
    RunInv(capacity, ops);
    FrontUsedLater(capacity, ops);
    if op.Free? {
      FreeEvictsOldest(Run(Empty(capacity), ops), op.key, rank, a, b);
    } else {
      StoreEvictsOldest(Run(Empty(capacity), ops), op.key, op.value, rank, a, b);
    }
  }

  ghost function Most(order: seq<Key>, rank: Key -> nat): nat {
    if order == [] then 0 else rank(order[0]) + Most(order[1..], rank)
  }

  lemma {:induction false} MostIs(order: seq<Key>, rank: Key -> nat)
    ensures forall k :: k in order ==> rank(k) <= Most(order, rank)
  {
    if order != [] {
      MostIs(order[1..], rank);
      assert forall k :: k in order ==> k == order[0] || k in order[1..];
    }
  }

  // ------------------------------------------------------------------------ contents

  /** The value the operations left under a key, evictions aside. */
  ghost function LastValue(s: State, ops: seq<Op>, k: Key): Option<Bytes> {
    if ops == [] then None
    else
      var front := ops[..|ops| - 1];
      match ops[|ops| - 1]
      case Store(j, v) => if j == k && Admits(Run(s, front), k, |v|) then Some(v) else LastValue(s, front, k)
      case Discard(j) => if j == k then None else LastValue(s, front, k)
      case Purge(t) => if t == k.torrent then None else LastValue(s, front, k)
      case _ => LastValue(s, front, k)
  }

  lemma ApplyContents(s: State, op: Op, k: Key)
    requires Inv(s) && k in Apply(s, op).items
    ensures var t := Apply(s, op);
      match op
      case Store(j, v) => if j == k && Admits(s, k, |v|) then t.items[k] == v else k in s.items && t.items[k] == s.items[k]
      case Discard(j) => j != k && k in s.items && t.items[k] == s.items[k]
      case Purge(n) => n != k.torrent && k in s.items && t.items[k] == s.items[k]
      case _ => k in s.items && t.items[k] == s.items[k]
  {
    match op
    case Store(j, v) =>
      PutContents(s, j, v);
      if Admits(s, j, |v|) {
        InsertSound(s, j, v);
        InsertFields(s, j, v);
        EvictSurvivors(Insert(s, j, v), Some(j));
      }
    case LegacyPin(j) => PinEffect(s, j, 0, false);
    case SizedPin(j, n) => if n >= 0 { PinEffect(s, j, n, true); }
    case Free(j) => UnpinInv(s, j);
    case Purge(n) => InvalidateInv(s, n);
    case _ =>
  }

  /** In every run a resident entry holds the value of the last admitted store of its key, and neither
      the key nor its torrent was dropped since. */
  lemma {:induction false} ResidentIsLastValue(capacity: int, ops: seq<Op>, k: Key)
    requires k in Run(Empty(capacity), ops).items
    ensures LastValue(Empty(capacity), ops, k) == Some(Run(Empty(capacity), ops).items[k])
  {
    if ops != [] {
      var front, op := ops[..|ops| - 1], ops[|ops| - 1];
      RunInv(capacity, front);
      ApplyContents(Run(Empty(capacity), front), op, k);
      if k in Run(Empty(capacity), front).items {
        ResidentIsLastValue(capacity, front, k);
      }
    }
  }

  lemma StoreLeaves(s: State, j: Key, v: Bytes, k: Key)
    requires Inv(s) && k in s.items && k !in Put(s, j, v).items
    ensures j == k || (k !in s.pinned && s.used - SizeOf(s, j) + |v| > HighWater(s.capacity))
  {
    InsertSound(s, j, v);
    InsertFields(s, j, v);
    EvictSurvivors(Insert(s, j, v), Some(j));
  }

  lemma FreeLeaves(s: State, j: Key, k: Key)
    requires Inv(s) && k in s.items && k !in Unpin(s, j).items
    ensures (k !in s.pinned || k == j) && s.used > HighWater(s.capacity)
  {
    UnpinInv(s, j);
  }

  /** Why an entry leaves: it or its torrent is dropped, its own store found no room, or it has no pin and
      a store or an unpin finds the cache above the high-water mark. */
  ghost predicate MayLeave(s: State, op: Op, k: Key) {
    match op
    case Discard(j) => j == k
    case Purge(t) => t == k.torrent
    case Free(j) => (k !in s.pinned || k == j) && s.used > HighWater(s.capacity)
    case Store(j, v) => j == k || (k !in s.pinned && s.used - SizeOf(s, j) + |v| > HighWater(s.capacity))
    case _ => false
  }

  lemma LeavesOnlyWhen(s: State, op: Op, k: Key)
    requires Inv(s) && k in s.items && k !in Apply(s, op).items
    ensures MayLeave(s, op, k)
  {
    match op
    case Store(j, v) => StoreLeaves(s, j, v, k);
    case LegacyPin(j) => PinEffect(s, j, 0, false);
    case SizedPin(j, n) => if n >= 0 { PinEffect(s, j, n, true); }
    case Free(j) => FreeLeaves(s, j, k);
    case Purge(t) => InvalidateInv(s, t);
    case _ =>
  }

  /** A torrent whose last resident bytes go has no account any more. */
  lemma AccountCloses(s: State, k: Key)
    requires Sound(s) && k in s.items && TorrentOccupancy(s.items - {k}, k.torrent) == 0
    ensures k.torrent !in Drop(s, k).usedByTorrent
  {
    TorrentOccupancyRemove(s.items, k, k.torrent);
  }

  // ------------------------------------------------------------ admission and pins

  /** What all other keys have reserved. */
  ghost function ReservedElsewhere(s: State, k: Key): int {
    Sum(s.sizes - {k})
  }

  /** Pinned entries of other keys. */
  ghost function PinnedElsewhere(s: State, k: Key): map<Key, Bytes> {
    map j | j in s.items && j in s.pinned && j != k :: s.items[j]
  }

  lemma ReservedSplit(s: State, k: Key)
    requires PinAccounts(s.pinned, s.sizes, s.sized, s.pinnedBytes)
    ensures s.pinnedBytes == ReservedElsewhere(s, k) + Get(s.sizes, k)
  {
    if k in s.sizes {
      SumRemove(s.sizes, k);
    } else {
      assert s.sizes - {k} == s.sizes;
    }
  }

  /** A value enters exactly when it fits the cache beside the other pinned entries and, under a sized pin,
      the pin budget beside the other reservations. Otherwise the key is as before, or gone if the value
      had been let in and then found no room. */
  lemma StoreDecides(s: State, k: Key, v: Bytes)
    requires Inv(s)
    ensures var p := Put(s, k, v);
      var budgeted := k in s.pinned && s.sized[k] ==> ReservedElsewhere(s, k) + |v| <= PinCap(s.capacity);
      if s.capacity <= 0 || |v| > s.capacity || !budgeted then p == s
      else if |v| + Occupancy(PinnedElsewhere(s, k)) <= s.capacity then k in p.items && p.items[k] == v
      else k !in p.items
  {
    ReservedSplit(s, k);
    if Admits(s, k, |v|) {
      var i := Insert(s, k, v);
      InsertSound(s, k, v);
      InsertFields(s, k, v);
      EvictSurvivors(i, Some(k));
      RoomDecides(s, k, v);
    }
  }

  /** After the pass the value is over capacity exactly when the other pinned entries leave no room. */
  lemma RoomDecides(s: State, k: Key, v: Bytes)
    requires Inv(s) && Admits(s, k, |v|)
    ensures Evict(Insert(s, k, v), Some(k)).used <= s.capacity <==> |v| + Occupancy(PinnedElsewhere(s, k)) <= s.capacity
  {
    var i := Insert(s, k, v);
    InsertSound(s, k, v);
    InsertFields(s, k, v);
    var e := Evict(i, Some(k));
    EvictSurvivors(i, Some(k));
    var held := PinnedElsewhere(s, k);
    OccupancyRemove(e.items, k);
    OccupancyShrinks(held, e.items - {k});
    if e.used > s.capacity {
      var n := EvictRun(i, Some(k));
      RunSurvivors(i, Some(k), e, n);
      OccupancyShrinks(e.items - {k}, held);
    }
  }

  /** A sized pin is granted exactly when it asks for no more than the key has reserved already, or when
      the larger of the two fits the budget beside the other reservations; it then holds the larger. */
  lemma PinDecides(s: State, k: Key, size: nat)
    requires Inv(s)
    ensures var (p, ok) := PinSize(s, k, size);
      var have := Get(s.sizes, k);
      var need := Max(Max(size, SizeOf(s, k)), have);
      && (ok <==> (k in s.pinned && s.sized[k] && need == have) || ReservedElsewhere(s, k) + need <= PinCap(s.capacity))
      && (ok ==> k in p.pinned && p.sizes == s.sizes[k := need] && p.sized[k])
      && (!ok ==> p == s)
  {
    ReservedSplit(s, k);
    PinEffect(s, k, size, true);
    if k in s.pinned {
      assert s.sizes[k := s.sizes[k]] == s.sizes;
    }
  }
}
