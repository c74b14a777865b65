/** The session's in-memory piece cache, updated in place under its lock. */
module PieceCache {
  import Sums
  import opened Types
  import opened CacheModel
  import M = CacheModel

  class Cache {
    const capacity: int
    var used: int
    var items: map<Key, Bytes>
    var lru: seq<Key> // most recently used first
    var pinned: set<Key>
    var pinnedSizes: map<Key, int>
    var pinnedSized: map<Key, bool>
    var pinnedBytes: int
    var usedByTorrent: map<string, int>

    ghost function State(): M.State
      reads this
    {
      M.State(capacity, used, items, lru, pinned, pinnedSizes, pinnedSized, pinnedBytes, usedByTorrent)
    }

    constructor (capacity: int)
      ensures State() == Empty(capacity) && Inv(State())
    {
      this.capacity := capacity;
      used, pinnedBytes := 0, 0;
      items, lru := map[], [];
      pinned, pinnedSizes, pinnedSized := {}, map[], map[];
      usedByTorrent := map[];
      new;
      EmptyInv(capacity);
    }

    /** A hit returns the stored value and becomes most recently used; a miss changes nothing. */
    method Get(key: Key) returns (value: Option<Bytes>)
      modifies this`lru
      ensures State() == Touch(old(State()), key)
      ensures value == if key in items then Some(items[key]) else None
    {
      if key !in items {
        return None;
      }
      lru := [key] + Without(lru, {key});
      return Some(items[key]);
    }

    method RemoveEntry(key: Key)
      requires key in items
      modifies this`items, this`lru, this`used, this`usedByTorrent
      ensures State() == Drop(old(State()), key)
    {
      var n := |items[key]|;
      items := items - {key};
      lru := Without(lru, {key});
      used := used - n;
      var left := Sums.Get(usedByTorrent, key.torrent) - n;
      if left <= 0 {
        usedByTorrent := usedByTorrent - {key.torrent};
      } else {
        usedByTorrent := usedByTorrent[key.torrent := left];
      }
    }

    method Remove(key: Key)
      modifies this`items, this`lru, this`used, this`usedByTorrent
      ensures State() == Drop(old(State()), key)
    {
      if key in items {
        RemoveEntry(key);
      }
    }

    /** Scans from the least recently used end. */
    method Victim(keep: Option<Key>) returns (victim: Option<Key>)
      ensures var i := VictimAt(lru, Shield(State(), keep));
              victim == if i < 0 then None else Some(lru[i])
    {
      ghost var shielded := Shield(State(), keep);
      var i := |lru|;
      while i > 0
        invariant 0 <= i <= |lru|
        invariant VictimAt(lru, shielded) == VictimAt(lru[..i], shielded)
      {
        i := i - 1;
        assert lru[..i + 1][..i] == lru[..i];
        if keep == Some(lru[i]) {
          continue;
        }
        if lru[i] !in pinned {
          return Some(lru[i]);
        }
      }
      victim := None;
    }

    method EvictPass(keep: Option<Key>)
      requires Linked(State())
      modifies this`items, this`lru, this`used, this`usedByTorrent
      ensures State() == Evict(old(State()), keep)
    {
      if used <= HighWater(capacity) {
        return;
      }
      while used > LowWater(capacity)
        invariant Linked(State())
        invariant Reclaim(State(), keep) == Reclaim(old(State()), keep)
        invariant Shield(State(), keep) == Shield(old(State()), keep)
        decreases |lru|
      {
        var victim := Victim(keep);
        if victim == None {
          return;
        }
        assert victim.value in lru;
        WithoutShorter(lru, {victim.value});
        WithoutMembers(lru, {victim.value});
        RemoveEntry(victim.value);
      }
    }

    method PushFront(key: Key, value: Bytes)
      modifies this`items, this`lru, this`used, this`usedByTorrent, this`pinnedSizes, this`pinnedBytes
      ensures State() == Link(old(State()), key, value)
    {
      lru := [key] + lru;
      items := items[key := value];
      used := used + |value|;
      usedByTorrent := usedByTorrent[key.torrent := Sums.Get(usedByTorrent, key.torrent) + |value|];
      if key in pinned {
        pinnedBytes := pinnedBytes + (|value| - Sums.Get(pinnedSizes, key));
        pinnedSizes := pinnedSizes[key := |value|];
      }
    }

    method Put(key: Key, value: Bytes)
      requires Linked(State())
      modifies this`items, this`lru, this`used, this`usedByTorrent, this`pinnedSizes, this`pinnedBytes
      ensures State() == M.Put(old(State()), key, value)
    {
      if capacity <= 0 || |value| > capacity {
        return;
      }
      if key in pinnedSized && pinnedSized[key] {
        if pinnedBytes - Sums.Get(pinnedSizes, key) + |value| > PinCap(capacity) {
          return;
        }
      }
      if key in items {
        WithoutMembers(lru, {key});
        RemoveEntry(key);
      }
      PushFront(key, value);
      EvictPass(Some(key));
      if used > capacity {
        if key in items {
          RemoveEntry(key);
        }
      }
    }

    method PinSize(key: Key, size: int) returns (ok: bool)
      modifies this`pinned, this`pinnedSizes, this`pinnedSized, this`pinnedBytes
      ensures (State(), ok) == M.PinSize(old(State()), key, size)
    {
      if size < 0 {
        return false;
      }
      var actual := if key in items then |items[key]| else 0;
      if size > actual {
        actual := size;
      }
      if key in pinned {
        var have := Sums.Get(pinnedSizes, key);
        if !(key in pinnedSized && pinnedSized[key]) && pinnedBytes > PinCap(capacity) {
          return false;
        }
        if actual <= have {
          pinnedSized := pinnedSized[key := true];
          return true;
        }
        if pinnedBytes + (actual - have) > PinCap(capacity) {
          return false;
        }
        pinnedBytes := pinnedBytes + (actual - have);
        pinnedSizes := pinnedSizes[key := actual];
        pinnedSized := pinnedSized[key := true];
        return true;
      }
      if pinnedBytes + actual > PinCap(capacity) {
        return false;
      }
      pinned := pinned + {key};
      pinnedSizes := pinnedSizes[key := actual];
      pinnedSized := pinnedSized[key := true];
      pinnedBytes := pinnedBytes + actual;
      return true;
    }

    method UnpinLocked(key: Key)
      modifies this`pinned, this`pinnedSizes, this`pinnedSized, this`pinnedBytes
      ensures State() == Release(old(State()), key)
    {
      if key !in pinned {
        return;
      }
      pinned := pinned - {key};
      pinnedBytes := pinnedBytes - Sums.Get(pinnedSizes, key);
      pinnedSizes := pinnedSizes - {key};
      pinnedSized := pinnedSized - {key};
    }

    method Unpin(key: Key)
      requires Linked(State())
      modifies this
      ensures State() == M.Unpin(old(State()), key) && Linked(State())
    {
      UnpinLinked(State(), key);
      UnpinLocked(key);
      if used > HighWater(capacity) {
        EvictPass(None);
      }
    }

    method RecountPinned() returns (total: int)
      requires forall k :: k in pinned <==> k in pinnedSizes
      ensures total == Sums.Sum(pinnedSizes)
    {
      total := 0;
      var left := pinned;
      ghost var rest := pinnedSizes;
      while left != {}
        invariant forall k :: k in left <==> k in rest
        invariant forall k :: k in rest ==> k in pinnedSizes && rest[k] == pinnedSizes[k]
        invariant total + Sums.Sum(rest) == Sums.Sum(pinnedSizes)
        decreases left
      {
        var k :| k in left;
        Sums.SumRemove(rest, k);
        total := total + pinnedSizes[k];
        left := left - {k};
        rest := rest - {k};
      }
      assert rest == map[];
    }

    /** Drops the entry at one place of the list. */
    method DropEntry(i: nat, ghost own: set<Key>)
      requires Sound(State()) && i < |lru| && lru[i] in own
      modifies this`items, this`lru, this`used, this`usedByTorrent
      ensures Sound(State()) && i <= |lru| && lru[i..] == old(lru)[i + 1..]
      ensures Without(lru, own) == Without(old(lru), own)
      ensures Foreign(items, old(lru)[i].torrent) == Foreign(old(items), old(lru)[i].torrent)
      ensures forall k :: k in items ==> k in old(items)
    {
      var key := lru[i];
      assert key in lru;
      DropOwn(lru, items, i, own);
      DropSound(State(), key);
      RemoveEntry(key);
    }

    /** Walks the list from the old end and drops every entry of one torrent. */
    method DropTorrent(torrent: string)
      requires Sound(State())
      modifies this`items, this`lru, this`used, this`usedByTorrent
      ensures Sound(State())
      ensures items == Foreign(old(items), torrent)
      ensures lru == Without(old(lru), OwnKeys(old(items), torrent))
    {
      ghost var own := OwnKeys(items, torrent);
      var i := |lru|;
      while i > 0
        invariant 0 <= i <= |lru|
        invariant Sound(State())
        invariant Without(lru, own) == Without(old(lru), own)
        invariant Foreign(items, torrent) == Foreign(old(items), torrent)
        invariant forall k :: k in items ==> k in old(items)
        invariant forall k :: k in lru[i..] ==> k.torrent != torrent
      {
        i := i - 1;
        SplitAt(lru, i);
        if lru[i].torrent == torrent {
          DropEntry(i, own);
        }
      }
      assert lru[0..] == lru;
      WithoutNothing(lru, own);
    }

    method ForgetPins(torrent: string)
      requires forall k :: k in pinned <==> k in pinnedSizes
      modifies this`pinned, this`pinnedSizes, this`pinnedSized, this`pinnedBytes
      ensures forall k :: k in pinned <==> k in old(pinned) && k.torrent != torrent
      ensures pinnedSizes == Foreign(old(pinnedSizes), torrent)
      ensures pinnedSized == Foreign(old(pinnedSized), torrent)
      ensures pinnedBytes == Sums.Sum(pinnedSizes)
    {
      pinned := set k | k in pinned && k.torrent != torrent;
      pinnedSizes := map k | k in pinnedSizes && k.torrent != torrent :: pinnedSizes[k];
      pinnedSized := map k | k in pinnedSized && k.torrent != torrent :: pinnedSized[k];
      pinnedBytes := RecountPinned();
    }

    method InvalidateTorrent(torrent: string)
      requires Inv(State())
      modifies this
      ensures Invalidated(old(State()), torrent, State())
    {
      ghost var s := State();
      DropTorrent(torrent);
      ForgetPins(torrent);
      InvalidatedBy(s, torrent, State());
    }

    /** The walk counts at most `limit` bytes. When every resident piece has its nominal extent and the
        range lies inside the torrent, the answer is exactly the distance from `start` to the first
        missing piece, capped at `limit`. */
    method ContiguousRun(torrent: string, start: nat, step: int, limit: int, ghost total: int) returns (run: int)
      ensures step <= 0 || limit <= 0 ==> run == 0
      ensures step > 0 && limit > 0 ==> 0 <= run <= limit
      ensures step > 0 && limit > 0 && Regular(items, torrent, step, total) && start + limit <= total ==>
        && (forall b :: start <= b < start + run ==> Key(torrent, b / step) in items)
        && (run < limit ==> Key(torrent, (start + run) / step) !in items)
    {
      if step <= 0 || limit <= 0 {
        return 0;
      }
      run := 0;
      ghost var regular := Regular(items, torrent, step, total) && start + limit <= total;
      var cursor := start;
      while run < limit
        invariant start <= cursor && 0 <= run <= limit
        invariant regular && run < limit ==> cursor == start + run
        invariant regular ==> forall b :: start <= b < start + run ==> Key(torrent, b / step) in items
        decreases limit - run
      {
        var index := cursor / step;
        if Key(torrent, index) !in items {
          return;
        }
        var pieceEnd := (index + 1) * step;
        var available := pieceEnd - cursor;
        InsidePiece(cursor, step);
        assert regular ==> Geometry(items, torrent, index, step, total);
        if |items[Key(torrent, index)]| < available {
          available := |items[Key(torrent, index)]|;
        }
        if available <= 0 {
          return;
        }
        if run + available > limit {
          available := limit - run;
        }
        forall b | cursor <= b < cursor + available ensures b / step == index {
          SamePiece(b, index, step);
        }
        run := run + available;
        cursor := pieceEnd;
      }
    }
  }

  lemma SplitAt(s: seq<Key>, i: nat)
    requires i < |s|
    ensures s[i] in s && forall k :: k in s[i..] <==> k == s[i] || k in s[i + 1..]
  {
    assert s[i..] == [s[i]] + s[i + 1..];
  }

  /** Dropping one of the torrent's entries leaves the filtered list and map alone. */
  lemma DropOwn(lru: seq<Key>, items: map<Key, Bytes>, i: nat, own: set<Key>)
    requires NoDuplicates(lru) && i < |lru| && lru[i] in own
    ensures i < |lru| == |Without(lru, {lru[i]})| + 1 && Without(lru, {lru[i]})[i..] == lru[i + 1..]
    ensures Without(Without(lru, {lru[i]}), own) == Without(lru, own)
    ensures Foreign(items - {lru[i]}, lru[i].torrent) == Foreign(items, lru[i].torrent)
  {
    WithoutAt(lru, i);
    WithoutTwice(lru, {lru[i]}, own);
    assert {lru[i]} + own == own;
  }

  lemma InvalidatedBy(s: M.State, torrent: string, r: M.State)
    requires Inv(s) && r.capacity == s.capacity
    requires Accounts(r.items, r.used, r.usedByTorrent)
    requires r.items == Foreign(s.items, torrent) && r.lru == Without(s.lru, OwnKeys(s.items, torrent))
    requires r.sizes == Foreign(s.sizes, torrent) && r.sized == Foreign(s.sized, torrent)
    requires forall k :: k in r.pinned <==> k in s.pinned && k.torrent != torrent
    requires r.pinnedBytes == Sums.Sum(r.sizes)
    ensures Invalidated(s, torrent, r)
  {
    InvalidateInv(s, torrent);
  }

  /** A resident piece holds its nominal extent: a full piece, or the torrent's tail. */
  ghost predicate Geometry(items: map<Key, Bytes>, torrent: string, i: int, step: int, total: int) {
    Key(torrent, i) in items && |items[Key(torrent, i)]| == if step < total - i * step then step else total - i * step
  }

  ghost predicate Regular(items: map<Key, Bytes>, torrent: string, step: int, total: int) {
    forall i :: Key(torrent, i) in items ==> Geometry(items, torrent, i, step, total)
  }

  lemma InsidePiece(b: nat, step: int)
    requires step > 0
    ensures (b / step) * step <= b < (b / step + 1) * step
  {
  }

  lemma SamePiece(b: nat, index: int, step: int)
    requires step > 0 && index * step <= b < (index + 1) * step
    ensures b / step == index
  {
    var q := b / step;
    InsidePiece(b, step);
    assert q < index ==> (q + 1) * step <= index * step;
    assert q > index ==> (index + 1) * step <= q * step;
  }
}
