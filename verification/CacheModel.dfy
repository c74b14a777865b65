/** The piece cache as a value: a byte-bounded LRU with pin reservations, and what every
    operation and every run of operations keeps. */
module CacheModel {
  import opened Sums
  import opened Types

  // ---------------------------------------------------------------- watermarks

  /** Seven eighths of the capacity, at least one byte. */
  function HighWater(capacity: int): (mark: int)
    ensures capacity > 0 ==> LowWater(capacity) <= mark <= capacity
    ensures if capacity > 1 then 8 * mark <= 7 * capacity < 8 * (mark + 1) else mark == if capacity == 1 then 1 else 0
  {
    if capacity <= 0 then 0
    else if capacity * 7 / 8 > 0 then capacity * 7 / 8 else 1
  }

  /** Three quarters of the capacity, at least one byte. */
  function LowWater(capacity: int): (mark: int)
    ensures capacity > 0 ==> 1 <= mark <= capacity && capacity - mark <= mark
    ensures if capacity > 1 then 4 * mark <= 3 * capacity < 4 * (mark + 1) else mark == if capacity == 1 then 1 else 0
  {
    if capacity <= 0 then 0
    else if capacity * 3 / 4 > 0 then capacity * 3 / 4 else 1
  }

  function PinCap(capacity: int): int {
    capacity - LowWater(capacity)
  }

  // ------------------------------------------------------------ recency order

  ghost predicate NoDuplicates<T>(s: seq<T>) {
    forall i, j :: 0 <= i < j < |s| ==> s[i] != s[j]
  }

  ghost function Elements<T>(s: seq<T>): set<T> {
    set x | x in s
  }

  /** The order that is left when `gone` is taken out. */
  function Without(order: seq<Key>, gone: set<Key>): seq<Key> {
    if order == [] then []
    else if order[0] in gone then Without(order[1..], gone)
    else [order[0]] + Without(order[1..], gone)
  }

  lemma {:induction false} WithoutMembers(order: seq<Key>, gone: set<Key>)
    ensures forall k :: k in Without(order, gone) <==> k in order && k !in gone
    ensures NoDuplicates(order) ==> NoDuplicates(Without(order, gone))
  {
    if order != [] {
      WithoutMembers(order[1..], gone);
      assert order == [order[0]] + order[1..];
      assert forall k :: k in order <==> k == order[0] || k in order[1..];
    }
  }

  lemma {:induction false} WithoutConcat(a: seq<Key>, b: seq<Key>, gone: set<Key>)
    ensures Without(a + b, gone) == Without(a, gone) + Without(b, gone)
  {
    if a == [] {
      assert a + b == b;
    } else {
      assert (a + b)[1..] == a[1..] + b;
      WithoutConcat(a[1..], b, gone);
    }
  }

  lemma {:induction false} WithoutNothing(order: seq<Key>, gone: set<Key>)
    requires forall k :: k in order ==> k !in gone
    ensures Without(order, gone) == order
  {
    if order != [] {
      assert order[0] in order;
      WithoutNothing(order[1..], gone);
    }
  }

  lemma {:induction false} WithoutTwice(order: seq<Key>, a: set<Key>, b: set<Key>)
    ensures Without(Without(order, a), b) == Without(order, a + b)
  {
    if order != [] {
      WithoutTwice(order[1..], a, b);
      if order[0] !in a {
        assert Without(order, a)[1..] == Without(order[1..], a);
      }
    }
  }

  lemma WithoutAt(order: seq<Key>, i: nat)
    requires i < |order| && NoDuplicates(order)
    ensures Without(order, {order[i]}) == order[..i] + order[i + 1..]
  {
    assert order == order[..i] + ([order[i]] + order[i + 1..]);
    WithoutMiddle(order[..i], order[i], order[i + 1..]);
  }

  lemma WithoutMiddle(front: seq<Key>, k: Key, back: seq<Key>)
    requires k !in front && k !in back
    ensures Without(front + ([k] + back), {k}) == front + back
  {
    WithoutConcat(front, [k] + back, {k});
    assert ([k] + back)[1..] == back;
    WithoutNothing(front, {k});
    WithoutNothing(back, {k});
  }

  /** Position of the least recently used entry outside `shielded`, or -1. */
  function VictimAt(order: seq<Key>, shielded: set<Key>): (i: int)
    ensures -1 <= i < |order|
    ensures i >= 0 ==> order[i] !in shielded
    ensures forall j :: i < j < |order| ==> order[j] in shielded
  {
    if order == [] then -1
    else if order[|order| - 1] !in shielded then |order| - 1
    else VictimAt(order[..|order| - 1], shielded)
  }

  /** Eviction candidates, least recently used first. */
  ghost function Victims(order: seq<Key>, shielded: set<Key>): seq<Key> {
    if order == [] then []
    else
      var last := order[|order| - 1];
      (if last in shielded then [] else [last]) + Victims(order[..|order| - 1], shielded)
  }

  /** Shielded entries at the recent or the old end never become victims. */
  lemma {:induction false} VictimsShieldedTail(a: seq<Key>, b: seq<Key>, shielded: set<Key>)
    requires forall k :: k in b ==> k in shielded
    ensures Victims(a + b, shielded) == Victims(a, shielded)
  {
    if b == [] {
      assert a + b == a;
    } else {
      var c := b[..|b| - 1];
      assert (a + b)[..|a + b| - 1] == a + c;
      assert b[|b| - 1] in b;
      VictimsShieldedTail(a, c, shielded);
    }
  }

  lemma {:induction false} VictimsMembers(order: seq<Key>, shielded: set<Key>)
    ensures forall k :: k in Victims(order, shielded) <==> k in order && k !in shielded
    ensures NoDuplicates(order) ==> NoDuplicates(Victims(order, shielded))
  {
    if order != [] {
      var front := order[..|order| - 1];
      VictimsMembers(front, shielded);
      assert order == front + [order[|order| - 1]];
    }
  }

  // ------------------------------------------------------------- byte accounts

  ghost function Sizes(items: map<Key, Bytes>): map<Key, int> {
    map k | k in items :: |items[k]|
  }

  ghost function SizesOf(items: map<Key, Bytes>, torrent: string): map<Key, int> {
    map k | k in items && k.torrent == torrent :: |items[k]|
  }

  ghost function Occupancy(items: map<Key, Bytes>): int {
    Sum(Sizes(items))
  }

  /** Resident bytes of one torrent. */
  ghost function TorrentOccupancy(items: map<Key, Bytes>, torrent: string): int {
    Sum(SizesOf(items, torrent))
  }

  lemma OccupancyRemove(items: map<Key, Bytes>, k: Key)
    requires k in items
    ensures Occupancy(items - {k}) == Occupancy(items) - |items[k]|
  {
    SumRemove(Sizes(items), k);
    assert Sizes(items - {k}) == Sizes(items) - {k};
  }

  lemma TorrentOccupancyRemove(items: map<Key, Bytes>, k: Key, t: string)
    requires k in items
    ensures TorrentOccupancy(items - {k}, t)
         == TorrentOccupancy(items, t) - (if t == k.torrent then |items[k]| else 0)
    ensures 0 <= TorrentOccupancy(items - {k}, t)
  {
    SumNonNegative(SizesOf(items - {k}, t));
    if t == k.torrent {
      SumRemove(SizesOf(items, t), k);
      assert SizesOf(items - {k}, t) == SizesOf(items, t) - {k};
    } else {
      assert SizesOf(items - {k}, t) == SizesOf(items, t);
    }
  }

  /** When only `kept` and pinned entries are left, reservations bound what is resident. */
  lemma ResidentBound(items: map<Key, Bytes>, reservations: map<Key, int>, kept: map<Key, int>)
    requires forall k :: k in items ==> k in reservations || k in kept
    requires forall k :: k in items && k in reservations ==> |items[k]| <= reservations[k]
    requires forall k :: k in items && k in kept ==> |items[k]| <= kept[k]
    requires forall k :: k in reservations ==> 0 <= reservations[k]
    requires forall k :: k in kept ==> 0 <= kept[k]
    ensures Occupancy(items) <= Sum(reservations) + Sum(kept)
  {
    var loose := map k | k in items && k in kept && k !in reservations :: |items[k]|;
    var held := map k | k in items && k in reservations :: |items[k]|;
    SumMonotone(held, reservations);
    SumMonotone(loose, kept);
    SplitSum(Sizes(items), held, loose);
  }

  ghost function SizedPins(sizes: map<Key, int>, sized: map<Key, bool>): map<Key, int> {
    map k | k in sizes && k in sized && sized[k] :: sizes[k]
  }

  // --------------------------------------------------------------------- state

  datatype State = State(
    capacity: int,
    used: int,
    items: map<Key, Bytes>,
    lru: seq<Key>, // most recently used first
    pinned: set<Key>,
    sizes: map<Key, int>,
    sized: map<Key, bool>,
    pinnedBytes: int,
    usedByTorrent: map<string, int>)

  /** The recency list and the map hold the same keys, once each. */
  ghost predicate Bijection(lru: seq<Key>, items: map<Key, Bytes>) {
    NoDuplicates(lru) && (forall k :: k in lru <==> k in items)
  }

  /** The part of the bijection that an eviction scan relies on. */
  ghost predicate Linked(s: State) {
    forall k :: k in s.lru ==> k in s.items
  }

  ghost predicate Accounts(items: map<Key, Bytes>, used: int, usedByTorrent: map<string, int>) {
    && used == Occupancy(items)
    && (forall t :: Get(usedByTorrent, t) == TorrentOccupancy(items, t))
  }

  /** Every pin has one reservation, and the reservations add up to the pin account. */
  ghost predicate PinAccounts(pinned: set<Key>, sizes: map<Key, int>, sized: map<Key, bool>, total: int) {
    && (forall k :: k in pinned <==> k in sizes)
    && (forall k :: k in pinned <==> k in sized)
    && (forall k :: k in sizes ==> 0 <= sizes[k])
    && total == Sum(sizes)
  }

  /** A reservation covers the resident bytes of the key it pins. */
  ghost predicate Covered(items: map<Key, Bytes>, sizes: map<Key, int>) {
    forall k :: k in sizes && k in items ==> |items[k]| <= sizes[k]
  }

  /** Sized reservations never exceed the pin budget, whatever legacy pins add on top. */
  ghost predicate WithinBudget(capacity: int, sizes: map<Key, int>, sized: map<Key, bool>) {
    capacity >= 0 ==> Sum(SizedPins(sizes, sized)) <= PinCap(capacity)
  }

  ghost predicate Sound(s: State) {
    && Bijection(s.lru, s.items)
    && Accounts(s.items, s.used, s.usedByTorrent)
    && PinAccounts(s.pinned, s.sizes, s.sized, s.pinnedBytes)
    && Covered(s.items, s.sizes)
    && WithinBudget(s.capacity, s.sizes, s.sized)
  }

  ghost predicate Inv(s: State) {
    Sound(s) && (s.used <= s.capacity || s.items == map[])
  }

  /** Every live pin was made through PinSize. */
  ghost predicate SizedOnly(s: State) {
    forall k :: k in s.pinned ==> k in s.sized && s.sized[k]
  }

  // ---------------------------------------------------------------- operations

  function Empty(capacity: int): State {
    State(capacity, 0, map[], [], {}, map[], map[], 0, map[])
  }

  function Charge(usedByTorrent: map<string, int>, torrent: string, n: int): map<string, int> {
    usedByTorrent[torrent := Get(usedByTorrent, torrent) + n]
  }

  /** An account that reaches zero is deleted. */
  function Refund(usedByTorrent: map<string, int>, torrent: string, n: int): map<string, int> {
    var left := Get(usedByTorrent, torrent) - n;
    if left <= 0 then usedByTorrent - {torrent} else usedByTorrent[torrent := left]
  }

  function Touch(s: State, key: Key): State {
    if key in s.items then s.(lru := [key] + Without(s.lru, {key})) else s
  }

  function Drop(s: State, key: Key): State {
    if key !in s.items then s
    else
      var n := |s.items[key]|;
      s.(items := s.items - {key}, lru := Without(s.lru, {key}), used := s.used - n,
         usedByTorrent := Refund(s.usedByTorrent, key.torrent, n))
  }

  function Shield(s: State, keep: Option<Key>): set<Key> {
    s.pinned + (if keep.Some? then {keep.value} else {})
  }

  lemma {:induction false} WithoutShorter(order: seq<Key>, gone: set<Key>)
    ensures |Without(order, gone)| <= |order|
    ensures (exists k :: k in order && k in gone) ==> |Without(order, gone)| < |order|
  {
    if order != [] {
      WithoutShorter(order[1..], gone);
      assert forall k :: k in order ==> k == order[0] || k in order[1..];
    }
  }

  /** Takes victims one by one until the low-water mark is reached or none is left. */
  function Reclaim(s: State, keep: Option<Key>): State
    decreases |s.lru|
  {
    var i := VictimAt(s.lru, Shield(s, keep));
    if s.used <= LowWater(s.capacity) || i < 0 || s.lru[i] !in s.items then s
    else
      WithoutShorter(s.lru, {s.lru[i]});
      assert s.lru[i] in s.lru;
      Reclaim(Drop(s, s.lru[i]), keep)
  }

  function Evict(s: State, keep: Option<Key>): State {
    if s.used <= HighWater(s.capacity) then s else Reclaim(s, keep)
  }

  predicate Admits(s: State, key: Key, n: int) {
    && s.capacity > 0 && n <= s.capacity
    && (key in s.sized && s.sized[key] ==>
          s.pinnedBytes - Get(s.sizes, key) + n <= PinCap(s.capacity))
  }

  /** Links a new entry at the front, charges the accounts and re-prices the key's pin. */
  function Link(s: State, key: Key, value: Bytes): State {
    State(s.capacity, s.used + |value|, s.items[key := value], [key] + s.lru, s.pinned,
          if key in s.pinned then s.sizes[key := |value|] else s.sizes, s.sized,
          if key in s.pinned then s.pinnedBytes + (|value| - Get(s.sizes, key)) else s.pinnedBytes,
          Charge(s.usedByTorrent, key.torrent, |value|))
  }

  /** The new entry in place, before any eviction. */
  function Insert(s: State, key: Key, value: Bytes): State {
    Link(Drop(s, key), key, value)
  }

  function Put(s: State, key: Key, value: Bytes): State {
    if !Admits(s, key, |value|) then s
    else
      var e := Evict(Insert(s, key, value), Some(key));
      if e.used > e.capacity then Drop(e, key) else e
  }

  function Max(a: int, b: int): int {
    if a > b then a else b
  }

  function SizeOf(s: State, key: Key): nat {
    if key in s.items then |s.items[key]| else 0
  }

  function Pin(s: State, key: Key, requested: int, reserve: bool): (State, bool) {
    var actual := Max(requested, SizeOf(s, key));
    if key in s.pinned then
      var have := Get(s.sizes, key);
      var wasSized := key in s.sized && s.sized[key];
      if reserve && !wasSized && s.pinnedBytes > PinCap(s.capacity) then (s, false)
      else if !reserve || actual <= have then
        (if reserve then s.(sized := s.sized[key := true]) else s, true)
      else if s.pinnedBytes + (actual - have) > PinCap(s.capacity) then (s, false)
      else
        (s.(pinnedBytes := s.pinnedBytes + (actual - have), sizes := s.sizes[key := actual],
            sized := s.sized[key := true]), true)
    else
      var reservation := if !reserve && SizeOf(s, key) == 0 then 0 else actual;
      if s.pinnedBytes + reservation > PinCap(s.capacity) then (s, false)
      else
        (s.(pinned := s.pinned + {key}, sizes := s.sizes[key := reservation], sized := s.sized[key := reserve],
            pinnedBytes := s.pinnedBytes + reservation), true)
  }

  function PinSize(s: State, key: Key, size: int): (State, bool) {
    if size < 0 then (s, false) else Pin(s, key, size, true)
  }

  function Release(s: State, key: Key): State {
    if key !in s.pinned then s
    else s.(pinned := s.pinned - {key}, pinnedBytes := s.pinnedBytes - Get(s.sizes, key),
            sizes := s.sizes - {key}, sized := s.sized - {key})
  }

  function Unpin(s: State, key: Key): State {
    var r := Release(s, key);
    if r.used > HighWater(r.capacity) then Evict(r, None) else r
  }

  // -------------------------------------------------- what every operation keeps

  lemma EmptyInv(capacity: int)
    ensures Inv(Empty(capacity)) && SizedOnly(Empty(capacity))
  {
    var s := Empty(capacity);
    assert Sizes(s.items) == map[];
    assert SizedPins(s.sizes, s.sized) == map[];
    forall t ensures TorrentOccupancy(s.items, t) == 0 {
      assert SizesOf(s.items, t) == map[];
    }
  }

  lemma DropAccounts(s: State, k: Key)
    requires k in s.items && Accounts(s.items, s.used, s.usedByTorrent)
    ensures var d := Drop(s, k); Accounts(d.items, d.used, d.usedByTorrent)
  {
    var d := Drop(s, k);
    OccupancyRemove(s.items, k);
    forall t ensures Get(d.usedByTorrent, t) == TorrentOccupancy(d.items, t) {
      TorrentOccupancyRemove(s.items, k, t);
    }
  }

  lemma DropSound(s: State, k: Key)
    requires Sound(s)
    ensures Sound(Drop(s, k)) && k !in Drop(s, k).items
  {
    if k in s.items {
      WithoutMembers(s.lru, {k});
      DropAccounts(s, k);
    }
  }

  lemma InsertAccounts(items: map<Key, Bytes>, used: int, usedByTorrent: map<string, int>, k: Key, v: Bytes)
    requires k !in items && Accounts(items, used, usedByTorrent)
    ensures Accounts(items[k := v], used + |v|, Charge(usedByTorrent, k.torrent, |v|))
  {
    var next := items[k := v];
    assert next - {k} == items;
    OccupancyRemove(next, k);
    forall t ensures Get(Charge(usedByTorrent, k.torrent, |v|), t) == TorrentOccupancy(next, t) {
      TorrentOccupancyRemove(next, k, t);
    }
  }

  /** Changing one reservation moves the pin account and the sized account by the difference. */
  lemma ResizePins(s: State, k: Key, n: int, size: bool)
    requires 0 <= n
    requires PinAccounts(s.pinned, s.sizes, s.sized, s.pinnedBytes)
    requires WithinBudget(s.capacity, s.sizes, s.sized)
    requires size ==> s.pinnedBytes - Get(s.sizes, k) + n <= PinCap(s.capacity)
    ensures var sizes', sized' := s.sizes[k := n], s.sized[k := size];
            && PinAccounts(s.pinned + {k}, sizes', sized', s.pinnedBytes - Get(s.sizes, k) + n)
            && WithinBudget(s.capacity, sizes', sized')
  {
    var sizes', sized' := s.sizes[k := n], s.sized[k := size];
    SumUpdate(s.sizes, k, n);
    if size {
      SumMonotone(SizedPins(sizes', sized'), sizes');
    } else {
      SumMonotone(SizedPins(sizes', sized'), SizedPins(s.sizes, s.sized));
    }
  }

  /** A reservation follows the bytes inserted under it. */
  lemma FollowPin(s: State, k: Key, n: int)
    requires k in s.pinned && 0 <= n && PinAccounts(s.pinned, s.sizes, s.sized, s.pinnedBytes)
    requires WithinBudget(s.capacity, s.sizes, s.sized)
    requires s.sized[k] ==> s.pinnedBytes - Get(s.sizes, k) + n <= PinCap(s.capacity)
    ensures PinAccounts(s.pinned, s.sizes[k := n], s.sized, s.pinnedBytes - Get(s.sizes, k) + n)
    ensures WithinBudget(s.capacity, s.sizes[k := n], s.sized)
  {
    ResizePins(s, k, n, s.sized[k]);
    assert s.sized[k := s.sized[k]] == s.sized;
    assert s.pinned + {k} == s.pinned;
  }

  lemma InsertPins(s: State, k: Key, v: Bytes)
    requires Sound(s) && Admits(s, k, |v|)
    ensures var p := Insert(s, k, v);
            && PinAccounts(p.pinned, p.sizes, p.sized, p.pinnedBytes)
            && WithinBudget(p.capacity, p.sizes, p.sized)
            && Covered(p.items, p.sizes)
  {
    if k in s.pinned {
      FollowPin(s, k, |v|);
    }
  }

  lemma FrontBijection(lru: seq<Key>, items: map<Key, Bytes>, k: Key, v: Bytes)
    requires Bijection(lru, items) && k !in items
    ensures Bijection([k] + lru, items[k := v])
  {
  }

  lemma InsertSound(s: State, k: Key, v: Bytes)
    requires Sound(s) && Admits(s, k, |v|)
    ensures Sound(Insert(s, k, v))
  {
    var d := Drop(s, k);
    DropSound(s, k);
    InsertPins(s, k, v);
    InsertAccounts(d.items, d.used, d.usedByTorrent, k, v);
    FrontBijection(d.lru, d.items, k, v);
  }

  /** What is resident once the entries of `gone` are evicted. */
  ghost function Less(items: map<Key, Bytes>, gone: seq<Key>): map<Key, Bytes> {
    items - Elements(gone)
  }

  lemma LessFirst(items: map<Key, Bytes>, all: seq<Key>, m: nat)
    requires 0 < m <= |all|
    ensures Less(items, all[..m]) == Less(items - {all[0]}, all[1..][..m - 1])
    ensures Elements(all[..m]) == {all[0]} + Elements(all[1..][..m - 1])
  {
    assert all[..m] == [all[0]] + all[1..][..m - 1];
  }

  /** An eviction pass is a shortest run of victims from the old end: it stops at the first
      point where the low-water mark is reached, and only when none is left otherwise. */
  ghost predicate ShortestRun(s: State, keep: Option<Key>, r: State, n: nat) {
    var all := Victims(s.lru, Shield(s, keep));
    && n <= |all|
    && r.items == Less(s.items, all[..n])
    && r.lru == Without(s.lru, Elements(all[..n]))
    && (r.used <= LowWater(s.capacity) || n == |all|)
    && (forall m :: 0 <= m < n ==> Occupancy(Less(s.items, all[..m])) > LowWater(s.capacity))
    && r == s.(items := r.items, lru := r.lru, used := r.used, usedByTorrent := r.usedByTorrent)
  }

  /** The victim found by the scan heads the candidate list, and dropping it leaves the tail. */
  lemma VictimHeads(order: seq<Key>, shielded: set<Key>)
    requires NoDuplicates(order)
    ensures var i := VictimAt(order, shielded);
            if i < 0 then Victims(order, shielded) == [] else
            && Victims(order, shielded) != [] && Victims(order, shielded)[0] == order[i]
            && Victims(Without(order, {order[i]}), shielded) == Victims(order, shielded)[1..]
  {
    var i := VictimAt(order, shielded);
    if i < 0 {
      assert order == [] + order;
      VictimsShieldedTail([], order, shielded);
    } else {
      var k := order[i];
      assert order == (order[..i] + [k]) + order[i + 1..];
      VictimsShieldedTail(order[..i] + [k], order[i + 1..], shielded);
      assert (order[..i] + [k])[..i] == order[..i];
      WithoutAt(order, i);
      VictimsShieldedTail(order[..i], order[i + 1..], shielded);
    }
  }

  /** Every shorter run from the front stays over the mark if the runs after the first victim do. */
  lemma StillOver(items: map<Key, Bytes>, all: seq<Key>, n: nat, low: int)
    requires n < |all| && Occupancy(items) > low
    requires forall m :: 0 <= m < n ==> Occupancy(Less(items - {all[0]}, all[1..][..m])) > low
    ensures forall m :: 0 <= m < n + 1 ==> Occupancy(Less(items, all[..m])) > low
  {
    forall m | 0 <= m < n + 1 ensures Occupancy(Less(items, all[..m])) > low {
      if m == 0 {
        assert Less(items, all[..0]) == items;
      } else {
        LessFirst(items, all, m);
      }
    }
  }

  lemma WithoutFirst(order: seq<Key>, all: seq<Key>, n: nat)
    requires n < |all|
    ensures Without(Without(order, {all[0]}), Elements(all[1..][..n])) == Without(order, Elements(all[..n + 1]))
  {
    WithoutTwice(order, {all[0]}, Elements(all[1..][..n]));
    assert all[..n + 1] == [all[0]] + all[1..][..n];
    assert Elements(all[..n + 1]) == {all[0]} + Elements(all[1..][..n]);
  }

  /** Prefixing one more victim to a run. */
  lemma RunStep(s: State, keep: Option<Key>, d: State, r: State, n: nat)
    requires Sound(s) && s.used > LowWater(s.capacity)
    requires var all := Victims(s.lru, Shield(s, keep));
             all != [] && d == Drop(s, all[0]) && Victims(d.lru, Shield(s, keep)) == all[1..] && all[0] in s.items
    requires ShortestRun(d, keep, r, n)
    ensures ShortestRun(s, keep, r, n + 1)
  {
    var all := Victims(s.lru, Shield(s, keep));
    LessFirst(s.items, all, n + 1);
    WithoutFirst(s.lru, all, n);
    StillOver(s.items, all, n, LowWater(s.capacity));
  }

  lemma EmptyRun(s: State, keep: Option<Key>)
    requires s.used <= LowWater(s.capacity) || Victims(s.lru, Shield(s, keep)) == []
    ensures ShortestRun(s, keep, s, 0)
  {
    var all := Victims(s.lru, Shield(s, keep));
    assert all[..0] == [] && Elements(all[..0]) == {};
    assert Less(s.items, all[..0]) == s.items;
    WithoutNothing(s.lru, {});
  }

  /** One turn of the reclaim loop. */
  lemma ReclaimStep(s: State, keep: Option<Key>) returns (d: State)
    requires Sound(s) && s.used > LowWater(s.capacity) && Victims(s.lru, Shield(s, keep)) != []
    ensures var all := Victims(s.lru, Shield(s, keep));
            all[0] in s.items && d == Drop(s, all[0]) && Victims(d.lru, Shield(s, keep)) == all[1..]
    ensures Reclaim(s, keep) == Reclaim(d, keep) && |d.lru| < |s.lru|
  {
    var i := VictimAt(s.lru, Shield(s, keep));
    VictimHeads(s.lru, Shield(s, keep));
    assert s.lru[i] in s.lru;
    WithoutShorter(s.lru, {s.lru[i]});
    d := Drop(s, s.lru[i]);
  }

  lemma {:induction false} ReclaimSound(s: State, keep: Option<Key>)
    requires Sound(s)
    ensures Sound(Reclaim(s, keep))
    decreases |s.lru|
  {
    VictimHeads(s.lru, Shield(s, keep));
    if s.used > LowWater(s.capacity) && Victims(s.lru, Shield(s, keep)) != [] {
      var d := ReclaimStep(s, keep);
      DropSound(s, Victims(s.lru, Shield(s, keep))[0]);
      ReclaimSound(d, keep);
    }
  }

  lemma {:induction false} ReclaimRun(s: State, keep: Option<Key>) returns (n: nat)
    requires Sound(s)
    ensures ShortestRun(s, keep, Reclaim(s, keep), n)
    decreases |s.lru|
  {
    VictimHeads(s.lru, Shield(s, keep));
    if s.used > LowWater(s.capacity) && Victims(s.lru, Shield(s, keep)) != [] {
      var d := ReclaimStep(s, keep);
      DropSound(s, Victims(s.lru, Shield(s, keep))[0]);
      n := ReclaimRun(d, keep);
      RunStep(s, keep, d, Reclaim(d, keep), n);
      n := n + 1;
    } else {
      n := 0;
      EmptyRun(s, keep);
    }
  }

  /** Occupancy never grows when entries leave. */
  lemma OccupancyShrinks(small: map<Key, Bytes>, big: map<Key, Bytes>)
    requires forall k :: k in small ==> k in big && small[k] == big[k]
    ensures Occupancy(small) <= Occupancy(big)
  {
    SumMonotone(Sizes(small), Sizes(big));
  }

  /** What an eviction pass guarantees. */
  lemma EvictRun(s: State, keep: Option<Key>) returns (n: nat)
    requires Sound(s)
    ensures Sound(Evict(s, keep))
    ensures s.used <= HighWater(s.capacity) ==> n == 0 && Evict(s, keep) == s
    ensures s.used > HighWater(s.capacity) ==> ShortestRun(s, keep, Evict(s, keep), n)
  {
    n := 0;
    if s.used > HighWater(s.capacity) {
      ReclaimSound(s, keep);
      n := ReclaimRun(s, keep);
    }
  }

  /** Entries that survive a pass are old entries, and shielded entries always survive. */
  lemma RunSurvivors(s: State, keep: Option<Key>, r: State, n: nat)
    requires Sound(s) && Sound(r) && ShortestRun(s, keep, r, n)
    ensures forall k :: k in r.items ==> k in s.items && r.items[k] == s.items[k]
    ensures forall k :: k in s.items && k in Shield(s, keep) ==> k in r.items
    ensures r.used <= LowWater(s.capacity) || forall k :: k in r.items ==> k in Shield(s, keep)
  {
    var all := Victims(s.lru, Shield(s, keep));
    VictimsMembers(s.lru, Shield(s, keep));
    assert all[..|all|] == all;
    assert forall k :: k in all[..n] ==> k in all;
  }

  lemma EvictSurvivors(s: State, keep: Option<Key>)
    requires Sound(s)
    ensures var e := Evict(s, keep);
      && Sound(e) && e.used <= Max(s.used, 0) && e.capacity == s.capacity
      && e.pinned == s.pinned && e.sizes == s.sizes && e.sized == s.sized && e.pinnedBytes == s.pinnedBytes
      && (forall k :: k in e.items ==> k in s.items && e.items[k] == s.items[k])
      && (forall k :: k in s.items && k in Shield(s, keep) ==> k in e.items)
  {
    var e := Evict(s, keep);
    var n := EvictRun(s, keep);
    if s.used > HighWater(s.capacity) {
      RunSurvivors(s, keep, e, n);
      OccupancyShrinks(e.items, s.items);
    }
  }

  /** After a pass that ran, either the low-water mark is met or only shielded entries remain,
      and those are bounded by their reservations (plus the kept entry). */
  lemma EvictBound(s: State, keep: Option<Key>)
    requires Sound(s) && s.used > HighWater(s.capacity)
    requires keep.Some? ==> keep.value in s.items
    ensures var e := Evict(s, keep);
      || e.used <= LowWater(s.capacity)
      || e.used <= s.pinnedBytes + (if keep.Some? && keep.value !in s.pinned then |s.items[keep.value]| else 0)
  {
    var e := Evict(s, keep);
    var n := EvictRun(s, keep);
    RunSurvivors(s, keep, e, n);
    if e.used > LowWater(s.capacity) {
      if keep.Some? && keep.value !in s.pinned {
        KeptBound(e.items, e.sizes, keep.value, |s.items[keep.value]|);
      } else {
        ResidentBound(e.items, e.sizes, map[]);
      }
    }
  }

  /** Only one entry is resident without a reservation. */
  lemma KeptBound(items: map<Key, Bytes>, reservations: map<Key, int>, kept: Key, n: nat)
    requires forall k :: k in items ==> k in reservations || k == kept
    requires forall k :: k in items && k in reservations ==> |items[k]| <= reservations[k]
    requires kept in items ==> |items[kept]| <= n
    requires forall k :: k in reservations ==> 0 <= reservations[k]
    ensures Occupancy(items) <= Sum(reservations) + n
  {
    var one := map[kept := n];
    SumRemove(one, kept);
    assert one - {kept} == map[];
    ResidentBound(items, reservations, one);
  }

  lemma SizedBudget(s: State)
    requires Sound(s) && SizedOnly(s)
    ensures s.capacity >= 0 ==> s.pinnedBytes <= PinCap(s.capacity)
  {
    assert SizedPins(s.sizes, s.sized) == s.sizes;
  }

  // ---- Put

  lemma PutInv(s: State, k: Key, v: Bytes)
    requires Inv(s)
    ensures Inv(Put(s, k, v))
    ensures SizedOnly(s) ==> SizedOnly(Put(s, k, v))
  {
    if Admits(s, k, |v|) {
      var i := Insert(s, k, v);
      InsertSound(s, k, v);
      EvictSurvivors(i, Some(k));
      DropSound(Evict(i, Some(k)), k);
      if Evict(i, Some(k)).used > s.capacity {
        PutRollback(s, k, v);
      }
    }
  }

  /** A rolled-back insertion leaves at most what was resident before it. */
  lemma PutRollback(s: State, k: Key, v: Bytes)
    requires Inv(s) && Admits(s, k, |v|)
    ensures Drop(Evict(Insert(s, k, v), Some(k)), k).used <= s.capacity
  {
    var i := Insert(s, k, v);
    InsertSound(s, k, v);
    var e := Evict(i, Some(k));
    EvictSurvivors(i, Some(k));
    DropSound(e, k);
    OccupancyShrinks(Drop(e, k).items, s.items);
    if s.items == map[] {
      assert Drop(e, k).items == map[];
      assert Sizes(Drop(e, k).items) == map[];
    }
  }

  /** A Put only ever adds its own value; everything else resident was resident before, and
      pins are untouched. */
  lemma PutContents(s: State, k: Key, v: Bytes)
    requires Inv(s)
    ensures var p := Put(s, k, v);
      && p.pinned == s.pinned && p.capacity == s.capacity
      && (forall j :: j in p.items && j != k ==> j in s.items && p.items[j] == s.items[j])
      && (k in p.items ==> p.items[k] == v || p == s)
      && (forall j :: j in s.items && j in s.pinned && j != k ==> j in p.items)
  {
    if Admits(s, k, |v|) {
      InsertSound(s, k, v);
      EvictSurvivors(Insert(s, k, v), Some(k));
      InsertFields(s, k, v);
    }
  }

  lemma InsertFields(s: State, k: Key, v: Bytes)
    ensures var i := Insert(s, k, v);
      && i.pinned == s.pinned && i.capacity == s.capacity && k in i.items && i.items[k] == v
      && (forall j :: j != k ==> (j in i.items <==> j in s.items))
      && (forall j :: j != k && j in s.items ==> i.items[j] == s.items[j])
  {
  }

  /** The residency guarantee: with sized pins only, a value of at most low-water bytes on an
      unpinned key, or any value that passes the reservation check on a pinned key, stays. */
  lemma PutStays(s: State, k: Key, v: Bytes)
    requires Inv(s) && SizedOnly(s) && s.capacity > 0
    requires if k in s.pinned then Admits(s, k, |v|) else |v| <= LowWater(s.capacity)
    ensures k in Put(s, k, v).items && Put(s, k, v).items[k] == v
  {
    InsertSound(s, k, v);
    InsertFits(s, k, v);
    EvictSurvivors(Insert(s, k, v), Some(k));
  }

  /** The pass after such an insertion needs no rollback. */
  lemma InsertFits(s: State, k: Key, v: Bytes)
    requires Inv(s) && SizedOnly(s) && s.capacity > 0 && Admits(s, k, |v|)
    requires k !in s.pinned ==> |v| <= LowWater(s.capacity)
    ensures Evict(Insert(s, k, v), Some(k)).used <= s.capacity
  {
    var i := Insert(s, k, v);
    InsertSound(s, k, v);
    SizedBudget(i);
    if i.used > HighWater(s.capacity) {
      EvictBound(i, Some(k));
    }
  }

  // ---- pins

  lemma PinEffect(s: State, k: Key, requested: int, reserve: bool)
    requires Inv(s) && 0 <= requested && (!reserve ==> requested == 0)
    ensures var (p, ok) := Pin(s, k, requested, reserve);
      && p == s.(pinned := p.pinned, sizes := p.sizes, sized := p.sized, pinnedBytes := p.pinnedBytes)
      && p.pinned == (if ok then s.pinned + {k} else s.pinned)
      && (!ok ==> p == s)
      && (ok && reserve ==> k in p.sizes && p.sizes[k] >= requested && p.sized[k])
      && (ok && p != s ==> p.sizes == s.sizes[k := p.sizes[k]] && p.sized == s.sized[k := p.sized[k]]
                           && p.pinnedBytes == s.pinnedBytes - Get(s.sizes, k) + p.sizes[k]
                           && p.sizes[k] >= SizeOf(s, k)
                           && (p.sized[k] ==> p.pinnedBytes <= PinCap(s.capacity)))
  {
    var (p, ok) := Pin(s, k, requested, reserve);
    if k in s.pinned && ok {
      assert s.pinned + {k} == s.pinned;
      if p.sizes == s.sizes {
        assert s.sizes == s.sizes[k := s.sizes[k]];
      }
    }
  }

  /** A granted reservation covers the request and keeps every account; a refused one changes nothing. */
  lemma PinInv(s: State, k: Key, requested: int, reserve: bool)
    requires Inv(s) && 0 <= requested && (!reserve ==> requested == 0)
    ensures Inv(Pin(s, k, requested, reserve).0)
    ensures reserve && SizedOnly(s) ==> SizedOnly(Pin(s, k, requested, reserve).0)
  {
    var (p, ok) := Pin(s, k, requested, reserve);
    PinEffect(s, k, requested, reserve);
    if p != s {
      ResizePins(s, k, p.sizes[k], p.sized[k]);
    }
  }

  lemma ReleaseSound(s: State, k: Key)
    requires Sound(s)
    ensures Sound(Release(s, k))
    ensures SizedOnly(s) ==> SizedOnly(Release(s, k))
  {
    if k in s.pinned {
      var r := Release(s, k);
      SumRemove(s.sizes, k);
      SumMonotone(SizedPins(r.sizes, r.sized), SizedPins(s.sizes, s.sized));
    }
  }

  lemma UnpinInv(s: State, k: Key)
    requires Inv(s)
    ensures Inv(Unpin(s, k))
    ensures SizedOnly(s) ==> SizedOnly(Unpin(s, k))
    ensures Unpin(s, k).pinned == s.pinned - {k} && Unpin(s, k).capacity == s.capacity
    ensures forall j :: j in Unpin(s, k).items ==> j in s.items && Unpin(s, k).items[j] == s.items[j]
    ensures forall j :: j in s.items && j in s.pinned && j != k ==> j in Unpin(s, k).items
  {
    ReleaseSound(s, k);
    EvictSurvivors(Release(s, k), None);
  }

  /** An Unpin that triggers an eviction pass always ends at or below the low-water mark. */
  lemma UnpinReachesLow(s: State, k: Key)
    requires Inv(s) && SizedOnly(s) && s.capacity > 0 && s.used > HighWater(s.capacity)
    ensures Unpin(s, k).used <= LowWater(s.capacity)
  {
    ReleaseSound(s, k);
    SizedBudget(Release(s, k));
    EvictBound(Release(s, k), None);
  }

  // ---- whole torrents

  ghost function Foreign<V>(m: map<Key, V>, torrent: string): map<Key, V> {
    map k | k in m && k.torrent != torrent :: m[k]
  }

  ghost function OwnKeys(items: map<Key, Bytes>, torrent: string): set<Key> {
    set k | k in items && k.torrent == torrent
  }

  /** Everything of one torrent is gone, resident and pinned, and nothing else changed. */
  ghost predicate Invalidated(s: State, torrent: string, r: State) {
    && Inv(r) && r.capacity == s.capacity
    && r.items == Foreign(s.items, torrent)
    && r.lru == Without(s.lru, OwnKeys(s.items, torrent))
    && r.sizes == Foreign(s.sizes, torrent) && r.sized == Foreign(s.sized, torrent)
    && (forall k :: k in r.pinned <==> k in s.pinned && k.torrent != torrent)
  }

  ghost function Invalidate(s: State, torrent: string): State {
    State(s.capacity, Occupancy(Foreign(s.items, torrent)), Foreign(s.items, torrent),
          Without(s.lru, OwnKeys(s.items, torrent)), (set k | k in s.pinned && k.torrent != torrent),
          Foreign(s.sizes, torrent), Foreign(s.sized, torrent), Sum(Foreign(s.sizes, torrent)),
          s.usedByTorrent - {torrent})
  }

  lemma ForeignAccounts(s: State, torrent: string)
    requires Accounts(s.items, s.used, s.usedByTorrent)
    ensures var r := Invalidate(s, torrent); Accounts(r.items, r.used, r.usedByTorrent)
    ensures Invalidate(s, torrent).used <= s.used
  {
    var r := Invalidate(s, torrent);
    OccupancyShrinks(r.items, s.items);
    forall t ensures Get(r.usedByTorrent, t) == TorrentOccupancy(r.items, t) {
      if t == torrent {
        assert SizesOf(r.items, t) == map[];
        assert TorrentOccupancy(r.items, t) == 0;
      } else {
        assert SizesOf(r.items, t) == SizesOf(s.items, t);
        assert Get(r.usedByTorrent, t) == Get(s.usedByTorrent, t);
      }
    }
  }

  lemma InvalidateInv(s: State, torrent: string)
    requires Inv(s)
    ensures Invalidated(s, torrent, Invalidate(s, torrent))
    ensures SizedOnly(s) ==> SizedOnly(Invalidate(s, torrent))
  {
    var r := Invalidate(s, torrent);
    ForeignAccounts(s, torrent);
    WithoutMembers(s.lru, OwnKeys(s.items, torrent));
    assert s.items == map[] ==> r.items == map[];
    SumMonotone(SizedPins(r.sizes, r.sized), SizedPins(s.sizes, s.sized));
  }

  // ---------------------------------------------------------------------- runs

  datatype Op =
    | Lookup(key: Key)
    | Store(key: Key, value: Bytes)
    | Discard(key: Key)
    | LegacyPin(key: Key)
    | SizedPin(key: Key, size: int)
    | Free(key: Key)
    | Purge(torrent: string)

  ghost function Apply(s: State, op: Op): State {
    match op
    case Lookup(k) => Touch(s, k)
    case Store(k, v) => Put(s, k, v)
    case Discard(k) => Drop(s, k)
    case LegacyPin(k) => Pin(s, k, 0, false).0
    case SizedPin(k, n) => PinSize(s, k, n).0
    case Free(k) => Unpin(s, k)
    case Purge(t) => Invalidate(s, t)
  }

  ghost function Run(s: State, ops: seq<Op>): State {
    if ops == [] then s else Apply(Run(s, ops[..|ops| - 1]), ops[|ops| - 1])
  }

  lemma ApplyInv(s: State, op: Op)
    requires Inv(s)
    ensures Inv(Apply(s, op)) && Apply(s, op).capacity == s.capacity
    ensures SizedOnly(s) && !op.LegacyPin? ==> SizedOnly(Apply(s, op))
  {
    match op
    case Lookup(k) => WithoutMembers(s.lru, {k});
    case Store(k, v) => PutInv(s, k, v); PutContents(s, k, v);
    case Discard(k) => DropInv(s, k);
    case LegacyPin(k) => PinInv(s, k, 0, false);
    case SizedPin(k, n) => if n >= 0 { PinInv(s, k, n, true); }
    case Free(k) => UnpinInv(s, k);
    case Purge(t) => InvalidateInv(s, t);
  }

  lemma DropInv(s: State, k: Key)
    requires Inv(s)
    ensures Inv(Drop(s, k))
  {
    DropSound(s, k);
    OccupancyShrinks(Drop(s, k).items, s.items);
  }

  /** In every run the accounts are exact and the hard capacity holds; without legacy pins the
      pin account always leaves a low-water mark's worth of bytes evictable. */
  lemma {:induction false} RunInv(capacity: int, ops: seq<Op>)
    ensures var r := Run(Empty(capacity), ops);
      && Inv(r) && r.capacity == capacity
      && ((forall op :: op in ops ==> !op.LegacyPin?) ==>
            SizedOnly(r) && (capacity > 0 ==> r.pinnedBytes <= capacity - LowWater(capacity)))
  {
    if ops == [] {
      EmptyInv(capacity);
    } else {
      var prefix := ops[..|ops| - 1];
      RunInv(capacity, prefix);
      ApplyInv(Run(Empty(capacity), prefix), ops[|ops| - 1]);
      assert ops[|ops| - 1] in ops && forall op :: op in prefix ==> op in ops;
    }
    var r := Run(Empty(capacity), ops);
    if SizedOnly(r) {
      SizedBudget(r);
    }
  }

  lemma {:induction false} ReclaimLinked(s: State, keep: Option<Key>)
    requires Linked(s)
    ensures Linked(Reclaim(s, keep))
    decreases |s.lru|
  {
    var i := VictimAt(s.lru, Shield(s, keep));
    if s.used > LowWater(s.capacity) && i >= 0 {
      assert s.lru[i] in s.lru;
      WithoutShorter(s.lru, {s.lru[i]});
      WithoutMembers(s.lru, {s.lru[i]});
      ReclaimLinked(Drop(s, s.lru[i]), keep);
    }
  }

  lemma UnpinLinked(s: State, key: Key)
    requires Linked(s)
    ensures Linked(Unpin(s, key))
  {
    ReclaimLinked(Release(s, key), None);
  }
}
