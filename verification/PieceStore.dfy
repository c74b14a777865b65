/** The piece store over the cache: staging buffers, epochs, tokens and torrent lifetimes,
    updated in place under the store lock. */
module PieceStore {
  import opened Types
  import opened Spans
  import C = CacheModel
  import opened StoreModel
  import opened PieceCache

  datatype Outcome = Ok | TorrentClosed | OutOfRange | Stale | Unverified | Incomplete | NotResident

  class Store {
    const cache: Cache
    var staging: map<Key, Staging>
    var lastRead: map<Key, nat>
    var epochs: map<Key, nat>
    var verifiedEpoch: map<Key, nat>
    var torrents: map<string, nat>
    var ended: set<nat>
    var nextLife: nat
    var nextGeneration: nat
    var closed: bool

    ghost function State(): StoreModel.Store
      reads this
    {
      StoreModel.Store.Store(staging, lastRead, epochs, verifiedEpoch, torrents, ended, nextLife, nextGeneration, closed)
    }

    constructor (cache: Cache)
      ensures this.cache == cache && State() == NewStore()
    {
      this.cache := cache;
      staging, lastRead, epochs, verifiedEpoch := map[], map[], map[], map[];
      torrents, ended, nextLife, nextGeneration, closed := map[], {}, 0, 0, false;
    }

    predicate LifeOpen(torrent: string, life: nat)
      reads this
      ensures LifeOpen(torrent, life) == Open(State(), torrent, life)
    {
      !closed && torrent in torrents && torrents[torrent] == life && life !in ended
    }

    /** Binds the store to the current lifetime of a torrent, starting a new one when needed. */
    method OpenTorrent(torrent: string, pieceLength: int) returns (life: Option<nat>)
      modifies this`torrents, this`nextLife
      ensures pieceLength <= 0 || pieceLength > cache.capacity ==> life == None && State() == old(State())
      ensures 0 < pieceLength <= cache.capacity ==>
        (State(), life) == StoreModel.OpenTorrent(old(State()), torrent)
    {
      if pieceLength <= 0 || pieceLength > cache.capacity || closed {
        return None;
      }
      if torrent !in torrents || torrents[torrent] in ended {
        torrents := torrents[torrent := nextLife];
        nextLife := nextLife + 1;
      }
      return Some(torrents[torrent]);
    }

    method EndLife(torrent: string, life: nat)
      modifies this`ended, this`torrents, this`staging, this`lastRead, this`epochs, this`verifiedEpoch
      ensures State() == StoreModel.EndLife(old(State()), torrent, life)
    {
      ended := ended + {life};
      if torrent !in torrents || torrents[torrent] != life {
        return;
      }
      torrents := torrents - {torrent};
      staging := map k | k in staging && k.torrent != torrent :: staging[k];
      lastRead := map k | k in lastRead && k.torrent != torrent :: lastRead[k];
      epochs := map k | k in epochs && k.torrent != torrent :: epochs[k];
      verifiedEpoch := map k | k in verifiedEpoch && k.torrent != torrent :: verifiedEpoch[k];
    }

    method Close()
      modifies this`closed, this`ended, this`torrents, this`staging, this`lastRead, this`epochs, this`verifiedEpoch
      ensures State() == CloseAll(old(State()))
    {
      closed := true;
      ended := ended + torrents.Values;
      torrents := map[];
      staging, lastRead, epochs, verifiedEpoch := map[], map[], map[], map[];
    }

    /** A new staging generation invalidates the resident value. */
    method Begin(key: Key, length: nat)
      modifies this`nextGeneration, this`epochs, this`lastRead, this`staging, cache
      ensures State() == Stage(old(State()), key, length)
      ensures cache.State() == if key in old(staging) then old(cache.State()) else C.Drop(old(cache.State()), key)
    {
      if key !in staging {
        nextGeneration := nextGeneration + 1;
        epochs := epochs[key := nextGeneration];
        cache.Remove(key);
        lastRead := lastRead - {key};
        staging := staging[key := Staging(nextGeneration, seq(length, _ => 0 as byte), [])];
      }
    }

    method WriteChunk(key: Key, off: nat, src: Bytes)
      requires key in staging && off + |src| <= |staging[key].data| && Separated(staging[key].received)
      modifies this`staging
      ensures State() == old(State()).(staging := old(staging)[key := Chunk(old(staging)[key], off, src)])
    {
      var buf := staging[key];
      var received := buf.received;
      if src != [] {
        received := Cover(buf.received, off, off + |src|);
      }
      staging := staging[key := Staging(buf.generation, buf.data[..off] + src + buf.data[off + |src|..], received)];
    }

    /** One window under the store lock: staging first, then the cache. */
    method Read(key: Key, life: nat, off: int, n: nat) returns (reply: Reply)
      requires key in staging && 0 <= off && Covers(staging[key].received, off, off + n)
               ==> off + n <= |staging[key].data|
      modifies this`lastRead, cache`lru
      ensures (State(), reply)
           == Fetch(old(State()), key, life, off, n, Resident(old(cache.State()), key))
      ensures cache.State() == Asked(old(State()), old(cache.State()), key, life)
    {
      if !LifeOpen(key.torrent, life) {
        return Closed;
      }
      if key in staging {
        var buf := staging[key];
        if off < 0 || !Covers(buf.received, off, off + n) {
          return Missing;
        }
        lastRead := lastRead[key := buf.generation];
        return Served(buf.data[off..off + n], false);
      }
      var data := cache.Get(key);
      if data == None {
        return Missing;
      }
      if off < 0 || off > |data.value| {
        return Served([], true);
      }
      if |data.value| - off < n {
        return Served(data.value[off..], true);
      }
      return Served(data.value[off..off + n], false);
    }

    /** Records the token of the hash that just finished, or says why it may not. */
    method MarkVerified(key: Key, life: nat, generation: nat, length: nat) returns (outcome: Outcome)
      modifies this`verifiedEpoch
      ensures outcome == Ok <==> Verifies(old(State()), key, life, generation, length, key in cache.items)
      ensures State() == if outcome == Ok
                         then old(State()).(verified := old(verifiedEpoch)[key := generation]) else old(State())
    {
      if !LifeOpen(key.torrent, life) {
        return TorrentClosed;
      }
      if generation == 0 || key !in epochs || epochs[key] != generation {
        return Stale;
      }
      if key in staging {
        if staging[key].generation != generation || !Covers(staging[key].received, 0, length)
           || key !in lastRead || lastRead[key] != generation {
          return Incomplete;
        }
      } else if key !in cache.items {
        return NotResident;
      }
      verifiedEpoch := verifiedEpoch[key := generation];
      return Ok;
    }
  }

  /** One piece of one torrent, as the torrent client holds it. */
  class Piece {
    const store: Store
    const key: Key
    const length: nat
    const life: nat
    var generation: nat

    constructor (store: Store, key: Key, length: nat, life: nat)
      ensures this.store == store && this.key == key && this.length == length && this.life == life
      ensures generation == Epoch(store.State(), key)
    {
      this.store, this.key, this.length, this.life := store, key, length, life;
      generation := if key in store.epochs then store.epochs[key] else 0;
    }

    /** The first chunk opens a generation and throws the resident value away; a chunk outside the
        piece still does both. */
    method WriteAt(off: int, src: Bytes) returns (outcome: Outcome)
      requires key in store.staging ==> Separated(store.staging[key].received)
      modifies this`generation, store, store.cache
      ensures store.cache.State() == if Open(old(store.State()), key.torrent, life) && key !in old(store.staging)
                                     then C.Drop(old(store.cache.State()), key) else old(store.cache.State())
      ensures !Open(old(store.State()), key.torrent, life) ==>
        outcome == TorrentClosed && store.State() == old(store.State()) && generation == old(generation)
      ensures Open(old(store.State()), key.torrent, life) ==>
        && store.State() == Write(old(store.State()), key, off, src, length)
        && generation == store.staging[key].generation
        && (outcome == Ok <==> InRange(off, |src|, |store.staging[key].data|))
    {
      if !store.LifeOpen(key.torrent, life) {
        return TorrentClosed;
      }
      store.Begin(key, length);
      generation := store.staging[key].generation;
      if off < 0 || off + |src| > |store.staging[key].data| {
        return OutOfRange;
      }
      store.WriteChunk(key, off, src);
      return Ok;
    }

    /** Everything a hash of the live buffer needs. */
    ghost predicate Hashable()
      reads this, store
    {
      && 0 < length && Open(store.State(), key.torrent, life) && generation != 0
      && key in store.epochs && store.epochs[key] == generation
      && key in store.staging && store.staging[key].generation == generation
      && Covers(store.staging[key].received, 0, length)
    }

    /** One window of the hash; a short answer counts as none. */
    method NextWindow(off: nat, n: nat) returns (bytes: Option<Bytes>)
      requires 0 < n && off + n <= length && (key in store.staging ==> |store.staging[key].data| == length)
      modifies store`lastRead, store.cache`lru
      ensures bytes.Some? ==> |bytes.value| == n
      ensures bytes.Some? && key in store.staging ==> bytes.value == store.staging[key].data[off..off + n]
      ensures old(Hashable()) ==> bytes.Some? && key in store.lastRead && store.lastRead[key] == generation
    {
      if key in store.staging {
        CoversPart(store.staging[key].received, length, off, off + n);
      }
      var reply := store.Read(key, life, off, n);
      if !reply.Served? || reply.short {
        return None;
      }
      return Some(reply.bytes);
    }

    /** The hash path: hands the whole piece over window by window, then asks for the token. */
    method WriteTo(window: nat) returns (handed: Bytes, outcome: Outcome)
      requires window > 0
      requires key in store.staging ==> |store.staging[key].data| == length && Separated(store.staging[key].received)
      modifies store`lastRead, store`verifiedEpoch, store.cache`lru
      ensures outcome == Ok ==>
        && |handed| == length && Open(store.State(), key.torrent, life)
        && key in store.verifiedEpoch && store.verifiedEpoch[key] == generation
        && (key in store.staging ==> generation == store.staging[key].generation && handed == store.staging[key].data)
      ensures outcome != Ok ==> store.verifiedEpoch == old(store.verifiedEpoch)
      ensures store.staging == old(store.staging) && (old(Hashable()) ==> outcome == Ok)
    {
      handed := [];
      while |handed| < length
        invariant |handed| <= length
        invariant old(Hashable()) && handed != [] ==> key in store.lastRead && store.lastRead[key] == generation
        invariant store.staging == old(store.staging) && store.verifiedEpoch == old(store.verifiedEpoch)
        invariant key in store.staging ==> handed == store.staging[key].data[..|handed|]
        decreases length - |handed|
      {
        var off := |handed|;
        var n := if window < length - off then window else length - off;
        var bytes := NextWindow(off, n);
        if bytes == None {
          return handed, NotResident;
        }
        handed := handed + bytes.value;
        assert key in store.staging ==> handed == store.staging[key].data[..off + n];
      }
      outcome := store.MarkVerified(key, life, generation, length);
    }

    /** Promotes the buffer only under a token of its own generation. */
    method MarkComplete() returns (outcome: Outcome)
      requires C.Linked(store.cache.State())
      modifies store`staging, store`lastRead, store`verifiedEpoch, store.cache
      ensures var s, c := old(store.State()), old(store.cache.State());
        if Promotes(s, key, life, generation, length) then
          && outcome == Ok && store.State() == Promote(s, key)
          && store.cache.State() == C.Put(c, key, s.staging[key].data)
        else
          && store.State() == s && store.cache.State() == c
          && (outcome == Ok <==> Open(s, key.torrent, life) && key !in s.staging)
    {
      if !store.LifeOpen(key.torrent, life) {
        return TorrentClosed;
      }
      if key !in store.staging {
        return Ok;
      }
      var buf := store.staging[key];
      if generation == 0 || buf.generation != generation {
        return Stale;
      }
      if key !in store.verifiedEpoch || store.verifiedEpoch[key] != buf.generation {
        return Unverified;
      }
      if !Covers(buf.received, 0, length) {
        return Incomplete;
      }
      store.staging := store.staging - {key};
      store.lastRead := store.lastRead - {key};
      store.verifiedEpoch := store.verifiedEpoch - {key};
      store.cache.Put(key, buf.data);
      return Ok;
    }

    method MarkNotComplete() returns (outcome: Outcome)
      modifies store`staging, store`lastRead, store.cache
      ensures var s, c := old(store.State()), old(store.cache.State());
        if Open(s, key.torrent, life) then
          outcome == Ok && store.State() == Discard(s, key, generation) && store.cache.State() == C.Drop(c, key)
        else outcome == TorrentClosed && store.State() == s && store.cache.State() == c
    {
      if !store.LifeOpen(key.torrent, life) {
        return TorrentClosed;
      }
      if key in store.staging && generation != 0 && store.staging[key].generation == generation {
        store.staging := store.staging - {key};
        store.lastRead := store.lastRead - {key};
      }
      store.cache.Remove(key);
      return Ok;
    }
  }
}
