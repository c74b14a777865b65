/** The staging and verification store as a value, and the protocol its piece handles follow.

    A piece handle reads, writes and hashes through the store in any interleaving. A generation
    numbers one staging buffer of one piece; a token (`verified`) records which generation a
    completed hash saw. */
module StoreModel {
  import opened Spans
  import opened Types
  import C = CacheModel

  // --------------------------------------------------------------- staging buffer

  datatype Staging = Staging(generation: nat, data: Bytes, received: seq<Span>)

  function Chunk(buf: Staging, off: nat, src: Bytes): Staging
    requires off + |src| <= |buf.data|
  {
    buf.(data := buf.data[..off] + src + buf.data[off + |src|..],
         received := if src == [] then buf.received else Absorb(buf.received, off, off + |src|, false))
  }

  /** No byte that had already arrived changes its value. */
  ghost predicate Repeats(buf: Staging, off: nat, src: Bytes)
    requires off + |src| <= |buf.data|
  {
    forall b :: off <= b < off + |src| && Has(buf.received, b) ==> buf.data[b] == src[b - off]
  }

  /** The buffer is canonical and `arrived` is exactly what peers delivered into it. */
  ghost predicate Holds(buf: Staging, arrived: map<int, byte>, length: nat) {
    && |buf.data| == length
    && Separated(buf.received)
    && (forall b :: Has(buf.received, b) <==> b in arrived)
    && (forall b :: b in arrived ==> 0 <= b < length && buf.data[b] == arrived[b])
  }

  /** Delivery of one chunk, byte by byte. */
  ghost function Arrive(arrived: map<int, byte>, off: nat, src: Bytes): map<int, byte>
    decreases |src|
  {
    if src == [] then arrived else Arrive(arrived[off := src[0]], off + 1, src[1..])
  }

  lemma {:induction false} ArriveAt(arrived: map<int, byte>, off: nat, src: Bytes, b: int)
    ensures b in Arrive(arrived, off, src) <==> b in arrived || off <= b < off + |src|
    ensures b in Arrive(arrived, off, src) ==>
      Arrive(arrived, off, src)[b] == if off <= b < off + |src| then src[b - off] else arrived[b]
    decreases |src|
  {
    if src != [] {
      ArriveAt(arrived[off := src[0]], off + 1, src[1..], b);
    }
  }

  lemma ChunkHolds(buf: Staging, arrived: map<int, byte>, length: nat, off: nat, src: Bytes)
    requires Holds(buf, arrived, length) && off + |src| <= length
    ensures Holds(Chunk(buf, off, src), Arrive(arrived, off, src), length)
  {
    var next, now := Chunk(buf, off, src), Arrive(arrived, off, src);
    if src == [] {
      assert next.data == buf.data;
    } else {
      AbsorbExact(buf.received, off, off + |src|);
      forall b ensures Has(next.received, b) <==> b in now
               ensures b in now ==> 0 <= b < length && next.data[b] == now[b]
      {
        ArriveAt(arrived, off, src, b);
      }
    }
  }

  /** `sofar` is a prefix of the buffer and every byte of it has arrived. */
  ghost predicate Prefix(buf: Staging, sofar: Bytes) {
    && |sofar| <= |buf.data| && sofar == buf.data[..|sofar|]
    && forall b :: 0 <= b < |sofar| ==> Has(buf.received, b)
  }

  lemma ChunkPrefix(buf: Staging, arrived: map<int, byte>, length: nat, off: nat, src: Bytes, sofar: Bytes)
    requires Holds(buf, arrived, length) && off + |src| <= length
    requires Prefix(buf, sofar) && Repeats(buf, off, src)
    ensures Prefix(Chunk(buf, off, src), sofar)
  {
    var next := Chunk(buf, off, src);
    if src != [] {
      AbsorbExact(buf.received, off, off + |src|);
    }
    forall b | 0 <= b < |sofar| ensures next.data[b] == sofar[b] {
      assert Has(buf.received, b);
    }
  }

  /** What a hash was handed from byte `foreign` on are delivered bytes of the buffer. */
  ghost predicate Follows(buf: Staging, p: Progress) {
    forall b :: p.foreign <= b < |p.sofar| ==> Has(buf.received, b) && b < |buf.data| && p.sofar[b] == buf.data[b]
  }

  /** A repeating chunk leaves a delivered byte alone. */
  lemma ChunkKeeps(buf: Staging, off: nat, src: Bytes, b: int)
    requires Separated(buf.received) && off + |src| <= |buf.data|
    requires Repeats(buf, off, src) && Has(buf.received, b) && 0 <= b < |buf.data|
    ensures var next := Chunk(buf, off, src);
      |next.data| == |buf.data| && Has(next.received, b) && next.data[b] == buf.data[b]
  {
    SpliceAt(buf.data, off, src, b);
    if src != [] {
      AbsorbExact(buf.received, off, off + |src|);
    }
  }

  lemma SpliceAt(data: Bytes, off: nat, src: Bytes, b: int)
    requires off + |src| <= |data| && 0 <= b < |data|
    ensures var next := data[..off] + src + data[off + |src|..];
      |next| == |data| && next[b] == if off <= b < off + |src| then src[b - off] else data[b]
  {
  }

  lemma ChunkFollows(buf: Staging, arrived: map<int, byte>, length: nat, off: nat, src: Bytes, p: Progress)
    requires Holds(buf, arrived, length) && off + |src| <= length
    requires Follows(buf, p) && Repeats(buf, off, src)
    ensures Follows(Chunk(buf, off, src), p)
  {
    var next := Chunk(buf, off, src);
    forall b | p.foreign <= b < |p.sofar| ensures Has(next.received, b) && b < |next.data| && p.sofar[b] == next.data[b] {
      ChunkKeeps(buf, off, src, b);
    }
  }

  // ---------------------------------------------------------------------- store

  datatype Store = Store(
    staging: map<Key, Staging>,
    lastRead: map<Key, nat>,
    epochs: map<Key, nat>,
    verified: map<Key, nat>,
    torrents: map<string, nat>, // the current lifetime of each torrent
    ended: set<nat>,            // lifetimes whose closed bit is set
    nextLife: nat,
    nextGeneration: nat,
    closed: bool)

  function NewStore(): Store {
    Store(map[], map[], map[], map[], map[], {}, 0, 0, false)
  }

  predicate Open(s: Store, torrent: string, life: nat) {
    !s.closed && torrent in s.torrents && s.torrents[torrent] == life && life !in s.ended
  }

  function OpenTorrent(s: Store, torrent: string): (Store, Option<nat>) {
    if s.closed then (s, None)
    else if torrent in s.torrents && s.torrents[torrent] !in s.ended then (s, Some(s.torrents[torrent]))
    else (s.(torrents := s.torrents[torrent := s.nextLife], nextLife := s.nextLife + 1), Some(s.nextLife))
  }

  /** A new staging buffer starts a new generation and voids the last read. */
  function Stage(s: Store, key: Key, length: nat): Store {
    if key in s.staging then s
    else
      var g := s.nextGeneration + 1;
      s.(nextGeneration := g, epochs := s.epochs[key := g], lastRead := s.lastRead - {key},
         staging := s.staging[key := Staging(g, seq(length, _ => 0 as byte), [])])
  }

  predicate InRange(off: int, n: nat, length: nat) {
    0 <= off && off + n <= length
  }

  function Write(s: Store, key: Key, off: int, src: Bytes, length: nat): Store {
    var t := Stage(s, key, length);
    var buf := t.staging[key];
    if InRange(off, |src|, |buf.data|) then t.(staging := t.staging[key := Chunk(buf, off, src)]) else t
  }

  datatype Reply = Closed | Missing | Served(bytes: Bytes, short: bool)

  /** One read under the store lock; `resident` is what the cache answers. */
  function Fetch(s: Store, key: Key, life: nat, off: int, n: nat, resident: Option<Bytes>): (Store, Reply) {
    if !Open(s, key.torrent, life) then (s, Closed)
    else if key in s.staging then
      var buf := s.staging[key];
      if off < 0 || !Covers(buf.received, off, off + n) || off + n > |buf.data| then (s, Missing)
      else (s.(lastRead := s.lastRead[key := buf.generation]), Served(buf.data[off..off + n], false))
    else match resident
      case None => (s, Missing)
      case Some(data) =>
        if off < 0 || off > |data| then (s, Served([], true))
        else if |data| - off < n then (s, Served(data[off..], true))
        else (s, Served(data[off..off + n], false))
  }

  /** Issues the token of a completed hash; `has` is whether the cache holds the piece. */
  predicate Verifies(s: Store, key: Key, life: nat, generation: nat, length: nat, has: bool) {
    && Open(s, key.torrent, life)
    && generation != 0 && key in s.epochs && s.epochs[key] == generation
    && if key in s.staging then
         && s.staging[key].generation == generation && Covers(s.staging[key].received, 0, length)
         && key in s.lastRead && s.lastRead[key] == generation
       else has
  }

  predicate Promotes(s: Store, key: Key, life: nat, generation: nat, length: nat) {
    && Open(s, key.torrent, life) && key in s.staging
    && generation != 0 && s.staging[key].generation == generation
    && key in s.verified && s.verified[key] == generation
    && Covers(s.staging[key].received, 0, length)
  }

  function Promote(s: Store, key: Key): Store {
    s.(staging := s.staging - {key}, lastRead := s.lastRead - {key}, verified := s.verified - {key})
  }

  function Discard(s: Store, key: Key, generation: nat): Store {
    if key in s.staging && generation != 0 && s.staging[key].generation == generation
    then s.(staging := s.staging - {key}, lastRead := s.lastRead - {key}) else s
  }

  function Elsewhere<V>(m: map<Key, V>, torrent: string): map<Key, V> {
    map k | k in m && k.torrent != torrent :: m[k]
  }

  /** Ends one lifetime. Only the current lifetime takes the torrent's state with it. */
  function EndLife(s: Store, torrent: string, life: nat): Store {
    var t := s.(ended := s.ended + {life});
    if torrent !in s.torrents || s.torrents[torrent] != life then t
    else t.(torrents := t.torrents - {torrent}, staging := Elsewhere(t.staging, torrent),
            lastRead := Elsewhere(t.lastRead, torrent), epochs := Elsewhere(t.epochs, torrent),
            verified := Elsewhere(t.verified, torrent))
  }

  function CloseAll(s: Store): Store {
    s.(closed := true, ended := s.ended + s.torrents.Values, torrents := map[], staging := map[],
       lastRead := map[], epochs := map[], verified := map[])
  }

  // ------------------------------------------------------- handles and history

  /** A WriteTo in progress: what the hasher has been handed, and how much of it before the handle
      adopted the generation it is of now. */
  datatype Progress = Progress(sofar: Bytes, foreign: nat)

  datatype Handle = Handle(key: Key, life: nat, generation: nat, hashing: Option<Progress>)

  /** What happened: byte streams that completed hashes were handed, by generation; generations in
      which a received byte changed or a hash that had strayed completed; chunks delivered. */
  datatype Past = Past(handed: set<(nat, Bytes)>, tainted: set<nat>, arrived: map<nat, map<int, byte>>)

  datatype System = System(store: Store, cache: C.State, handles: map<nat, Handle>, past: Past)

  datatype Op =
    | Begin(torrent: string)
    | Attach(id: nat, key: Key, life: nat)
    | WriteAt(id: nat, off: int, src: Bytes)
    | ReadAt(id: nat, off: int, n: nat)
    | StartHash(id: nat)
    | HashNext(id: nat, n: nat)
    | FinishHash(id: nat)
    | MarkComplete(id: nat)
    | MarkNotComplete(id: nat)
    | CloseTorrent(torrent: string)
    | CloseLife(torrent: string, life: nat)
    | CloseStore
    | Traffic(cache: C.State) // whatever others do to the cache

  function Resident(cache: C.State, key: Key): Option<Bytes> {
    if key in cache.items then Some(cache.items[key]) else None
  }

  /** A read asks the cache only in an open lifetime and without a live buffer. */
  function Asked(s: Store, cache: C.State, key: Key, life: nat): C.State {
    if Open(s, key.torrent, life) && key !in s.staging then C.Touch(cache, key) else cache
  }

  /** The first chunk of a generation throws the resident value away. */
  function Replaced(s: Store, cache: C.State, key: Key, life: nat): C.State {
    if Open(s, key.torrent, life) && key !in s.staging then C.Drop(cache, key) else cache
  }

  function Epoch(s: Store, key: Key): nat {
    if key in s.epochs then s.epochs[key] else 0
  }

  function Abort(h: Handle): Handle {
    h.(hashing := None)
  }

  /** The system once `key` has a live buffer. */
  ghost function Staged(length: Key -> nat, y: System, key: Key): System {
    if key in y.store.staging then y
    else
      var t := Stage(y.store, key, length(key));
      y.(store := t, past := y.past.(arrived := y.past.arrived[t.nextGeneration := map[]]))
  }

  /** A chunk delivered into the live buffer; a changed byte taints the generation. */
  ghost function Chunked(y: System, key: Key, off: int, src: Bytes): System
    requires key in y.store.staging && y.store.staging[key].generation in y.past.arrived
  {
    var buf := y.store.staging[key];
    var g := buf.generation;
    if !InRange(off, |src|, |buf.data|) then y
    else
      y.(store := y.store.(staging := y.store.staging[key := Chunk(buf, off, src)]),
         past := y.past.(tainted := if Repeats(buf, off, src) then y.past.tainted else y.past.tainted + {g},
                         arrived := y.past.arrived[g := Arrive(y.past.arrived[g], off, src)]))
  }

  /** The writing handle adopts the buffer's generation; what its own hash read before is foreign to a
      new one. */
  function Rebound(h: Handle, g: nat): Handle {
    if h.generation == g || h.hashing.None? then h.(generation := g)
    else h.(generation := g, hashing := Some(h.hashing.value.(foreign := |h.hashing.value.sofar|)))
  }

  /** Some byte the hash read before its handle adopted the live generation is not the buffer's. */
  ghost predicate Strays(s: Store, h: Handle) {
    && h.hashing.Some? && h.key in s.staging
    && var p := h.hashing.value;
       exists b :: 0 <= b < p.foreign && b < |p.sofar| && b < |s.staging[h.key].data| && p.sofar[b] != s.staging[h.key].data[b]
  }

  ghost function WriteStep(length: Key -> nat, y: System, id: nat, off: int, src: Bytes): System
    requires id in y.handles && Buffers(length, y)
  {
    var h := y.handles[id];
    if !Open(y.store, h.key.torrent, h.life) then y
    else
      var staged := Staged(length, y, h.key);
      var z := Chunked(staged, h.key, off, src);
      z.(handles := z.handles[id := Rebound(h, staged.store.staging[h.key].generation)])
  }

  ghost function HashStep(length: Key -> nat, y: System, id: nat, n: nat, resident: Option<Bytes>): System
    requires id in y.handles && y.handles[id].hashing.Some?
  {
    var h := y.handles[id];
    var p := h.hashing.value;
    var off := |p.sofar|;
    if off + n > length(h.key) then y
    else
      var (s, reply) := Fetch(y.store, h.key, h.life, off, n, resident);
      y.(store := s,
         handles := y.handles[id :=
           if reply.Served? && !reply.short then h.(hashing := Some(p.(sofar := p.sofar + reply.bytes)))
           else Abort(h)])
  }

  ghost function FinishStep(length: Key -> nat, y: System, id: nat, has: bool): System
    requires id in y.handles && y.handles[id].hashing.Some?
  {
    var h := y.handles[id];
    var p := h.hashing.value;
    var done := y.(handles := y.handles[id := Abort(h)]);
    if |p.sofar| == length(h.key) && Verifies(y.store, h.key, h.life, h.generation, length(h.key), has) then
      done.(store := y.store.(verified := y.store.verified[h.key := h.generation]),
            past := y.past.(handed := y.past.handed + {(h.generation, p.sofar)},
                            tainted := if Strays(y.store, h) then y.past.tainted + {h.generation} else y.past.tainted))
    else done
  }

  ghost function Step(length: Key -> nat, y: System, op: Op): System
    requires Buffers(length, y)
  {
    match op
    case Begin(t) => y.(store := OpenTorrent(y.store, t).0)
    case Attach(id, key, life) =>
      if id in y.handles then y
      else y.(handles := y.handles[id := Handle(key, life, Epoch(y.store, key), None)])
    case WriteAt(id, off, src) =>
      if id !in y.handles then y
      else
        var h := y.handles[id];
        WriteStep(length, y, id, off, src).(cache := Replaced(y.store, y.cache, h.key, h.life))
    case ReadAt(id, off, n) =>
      if id !in y.handles then y
      else
        var h := y.handles[id];
        y.(store := Fetch(y.store, h.key, h.life, off, n, Resident(y.cache, h.key)).0,
           cache := Asked(y.store, y.cache, h.key, h.life))
    case StartHash(id) =>
      if id in y.handles && y.handles[id].hashing.None? then
        y.(handles := y.handles[id := y.handles[id].(hashing := Some(Progress([], 0)))])
      else y
    case HashNext(id, n) =>
      if id !in y.handles || y.handles[id].hashing.None? then y
      else
        var h := y.handles[id];
        HashStep(length, y, id, n, Resident(y.cache, h.key)).(cache := Asked(y.store, y.cache, h.key, h.life))
    case FinishHash(id) =>
      if id !in y.handles || y.handles[id].hashing.None? then y
      else FinishStep(length, y, id, y.handles[id].key in y.cache.items)
    case MarkComplete(id) =>
      if id !in y.handles then y
      else
        var h := y.handles[id];
        if !Promotes(y.store, h.key, h.life, h.generation, length(h.key)) then y
        else y.(store := Promote(y.store, h.key), cache := C.Put(y.cache, h.key, y.store.staging[h.key].data))
    case MarkNotComplete(id) =>
      if id !in y.handles then y
      else
        var h := y.handles[id];
        if !Open(y.store, h.key.torrent, h.life) then y
        else y.(store := Discard(y.store, h.key, h.generation), cache := C.Drop(y.cache, h.key))
    case CloseTorrent(t) =>
      if t in y.store.torrents then y.(store := EndLife(y.store, t, y.store.torrents[t])) else y
    case CloseLife(t, life) =>
      if life < y.store.nextLife then y.(store := EndLife(y.store, t, life)) else y
    case CloseStore => y.(store := CloseAll(y.store))
    case Traffic(cache) => y.(cache := cache)
  }

  // ------------------------------------------------------------------ invariant

  /** Generations are issued once each, and every buffer is of its key's current epoch. */
  ghost predicate Epochs(s: Store) {
    && (forall k :: k in s.staging ==> k in s.epochs && s.epochs[k] == s.staging[k].generation)
    && (forall k :: k in s.epochs ==> 1 <= s.epochs[k] <= s.nextGeneration)
    && (forall j, k :: j in s.epochs && k in s.epochs && s.epochs[j] == s.epochs[k] ==> j == k)
    && (forall k :: k in s.verified ==> s.verified[k] <= s.nextGeneration)
  }

  ghost predicate Buffers(length: Key -> nat, y: System) {
    forall k :: k in y.store.staging ==>
      && y.store.staging[k].generation in y.past.arrived
      && Holds(y.store.staging[k], y.past.arrived[y.store.staging[k].generation], length(k))
  }

  /** A hash through a handle of the live generation has been handed delivered bytes of its buffer, but
      for what it read before the handle adopted that generation. */
  ghost predicate Faithful(s: Store, tainted: set<nat>, h: Handle) {
    && h.generation <= s.nextGeneration
    && (h.hashing.Some? && h.key in s.staging && s.staging[h.key].generation == h.generation && h.generation !in tainted
        ==> Follows(s.staging[h.key], h.hashing.value))
  }

  /** A live token names a buffer whose bytes some hash of that generation was handed. */
  ghost predicate Token(s: Store, past: Past, k: Key) {
    k in s.verified && k in s.staging && s.verified[k] == s.staging[k].generation
    && s.staging[k].generation !in past.tainted ==>
      && (s.staging[k].generation, s.staging[k].data) in past.handed
      && Prefix(s.staging[k], s.staging[k].data)
  }

  /** While a live generation is untainted, every stream a hash was handed under it is the whole buffer. */
  ghost predicate Streams(s: Store, past: Past, k: Key) {
    k in s.staging && s.staging[k].generation !in past.tainted ==>
      forall d :: (s.staging[k].generation, d) in past.handed ==>
        d == s.staging[k].data && Prefix(s.staging[k], s.staging[k].data)
  }

  ghost predicate Issued(s: Store, past: Past) {
    forall g, d :: (g, d) in past.handed ==> g <= s.nextGeneration
  }

  ghost predicate Inv(length: Key -> nat, y: System) {
    && Epochs(y.store)
    && Buffers(length, y)
    && Issued(y.store, y.past)
    && (forall k :: Streams(y.store, y.past, k))
    && (forall id :: id in y.handles ==> Faithful(y.store, y.past.tainted, y.handles[id]))
    && (forall k :: Token(y.store, y.past, k))
  }

  // ------------------------------------------------- what every step preserves

  /** t keeps a part of what s holds and issues nothing new. */
  ghost predicate Within(t: Store, s: Store) {
    && t.nextGeneration == s.nextGeneration
    && (forall k :: k in t.staging ==> k in s.staging && t.staging[k] == s.staging[k] && k in t.epochs)
    && (forall k :: k in t.epochs ==> k in s.epochs && t.epochs[k] == s.epochs[k])
    && (forall k :: k in t.verified ==> k in s.verified && t.verified[k] == s.verified[k])
  }

  lemma ShrinkInv(length: Key -> nat, y: System, t: Store)
    requires Inv(length, y) && Within(t, y.store)
    ensures Inv(length, y.(store := t))
  {
    forall id | id in y.handles ensures Faithful(t, y.past.tainted, y.handles[id]) {
      assert Faithful(y.store, y.past.tainted, y.handles[id]);
    }
    forall k ensures Token(t, y.past, k) && Streams(t, y.past, k) {
      assert Token(y.store, y.past, k) && Streams(y.store, y.past, k);
    }
  }

  lemma CacheFree(length: Key -> nat, y: System, cache: C.State)
    requires Inv(length, y)
    ensures Inv(length, y.(cache := cache))
  {
    var z := y.(cache := cache);
    assert z.store == y.store && z.past == y.past && z.handles == y.handles;
  }

  lemma EndLifeWithin(s: Store, torrent: string, life: nat)
    requires Epochs(s)
    ensures Within(EndLife(s, torrent, life), s)
  {
  }

  lemma StageEpochs(s: Store, key: Key, length: nat)
    requires Epochs(s)
    ensures Epochs(Stage(s, key, length))
  {
  }

  /** Staging a new buffer: nothing older refers to its generation. */
  lemma StagedBuffers(length: Key -> nat, y: System, key: Key)
    requires Inv(length, y)
    ensures Buffers(length, Staged(length, y, key))
  {
    var z := Staged(length, y, key);
    forall k | k in z.store.staging
      ensures z.store.staging[k].generation in z.past.arrived
      ensures Holds(z.store.staging[k], z.past.arrived[z.store.staging[k].generation], length(k))
    {
      if k !in y.store.staging {
        assert !exists b :: Has(z.store.staging[k].received, b);
      }
    }
  }

  lemma StagedInv(length: Key -> nat, y: System, key: Key)
    requires Inv(length, y)
    ensures Inv(length, Staged(length, y, key)) && key in Staged(length, y, key).store.staging
  {
    var z := Staged(length, y, key);
    StageEpochs(y.store, key, length(key));
    StagedBuffers(length, y, key);
    forall id | id in z.handles ensures Faithful(z.store, z.past.tainted, z.handles[id]) {
      assert Faithful(y.store, y.past.tainted, y.handles[id]);
    }
    forall k ensures Token(z.store, z.past, k) && Streams(z.store, z.past, k) {
      assert Token(y.store, y.past, k) && Streams(y.store, y.past, k);
    }
  }

  lemma ChunkedStore(length: Key -> nat, y: System, key: Key, off: int, src: Bytes)
    requires Inv(length, y) && key in y.store.staging
    ensures var z := Chunked(y, key, off, src); Epochs(z.store) && Buffers(length, z)
  {
    var buf := y.store.staging[key];
    if InRange(off, |src|, |buf.data|) {
      ChunkHolds(buf, y.past.arrived[buf.generation], length(key), off, src);
    }
  }

  lemma ChunkedFaithful(length: Key -> nat, y: System, key: Key, off: int, src: Bytes, h: Handle)
    requires Inv(length, y) && key in y.store.staging
    requires Faithful(y.store, y.past.tainted, h)
    ensures var z := Chunked(y, key, off, src); Faithful(z.store, z.past.tainted, h)
  {
    var buf := y.store.staging[key];
    if InRange(off, |src|, |buf.data|) && h.key == key && h.hashing.Some?
       && Follows(buf, h.hashing.value) && Repeats(buf, off, src) {
      ChunkFollows(buf, y.past.arrived[buf.generation], length(key), off, src, h.hashing.value);
    }
  }

  lemma ChunkedToken(length: Key -> nat, y: System, key: Key, off: int, src: Bytes, k: Key)
    requires Inv(length, y) && key in y.store.staging
    ensures var z := Chunked(y, key, off, src); Token(z.store, z.past, k)
  {
    var buf := y.store.staging[key];
    assert Token(y.store, y.past, k);
    if InRange(off, |src|, |buf.data|) && k == key && Prefix(buf, buf.data) && Repeats(buf, off, src) {
      ChunkPrefix(buf, y.past.arrived[buf.generation], length(key), off, src, buf.data);
      assert Chunk(buf, off, src).data == buf.data;
    }
  }

  lemma ChunkedStreams(length: Key -> nat, y: System, key: Key, off: int, src: Bytes, k: Key)
    requires Inv(length, y) && key in y.store.staging
    ensures var z := Chunked(y, key, off, src); Streams(z.store, z.past, k)
  {
    var buf := y.store.staging[key];
    assert Streams(y.store, y.past, k);
    if InRange(off, |src|, |buf.data|) && k == key && Prefix(buf, buf.data) && Repeats(buf, off, src) {
      ChunkPrefix(buf, y.past.arrived[buf.generation], length(key), off, src, buf.data);
      assert Chunk(buf, off, src).data == buf.data;
    }
  }

  lemma ChunkedInv(length: Key -> nat, y: System, key: Key, off: int, src: Bytes)
    requires Inv(length, y) && key in y.store.staging
    ensures Inv(length, Chunked(y, key, off, src))
  {
    var z := Chunked(y, key, off, src);
    ChunkedStore(length, y, key, off, src);
    forall id | id in z.handles ensures Faithful(z.store, z.past.tainted, z.handles[id]) {
      ChunkedFaithful(length, y, key, off, src, y.handles[id]);
    }
    forall k ensures Token(z.store, z.past, k) && Streams(z.store, z.past, k) {
      ChunkedToken(length, y, key, off, src, k);
      ChunkedStreams(length, y, key, off, src, k);
    }
  }

  /** Changing one handle. */
  lemma HandleInv(length: Key -> nat, y: System, id: nat, h: Handle)
    requires Inv(length, y) && Faithful(y.store, y.past.tainted, h)
    ensures Inv(length, y.(handles := y.handles[id := h]))
  {
  }

  lemma WriteInv(length: Key -> nat, y: System, id: nat, off: int, src: Bytes)
    requires Inv(length, y) && id in y.handles
    ensures Inv(length, WriteStep(length, y, id, off, src))
  {
    var h := y.handles[id];
    if Open(y.store, h.key.torrent, h.life) {
      var staged := Staged(length, y, h.key);
      StagedInv(length, y, h.key);
      ChunkedInv(length, staged, h.key, off, src);
      var z := Chunked(staged, h.key, off, src);
      var g := staged.store.staging[h.key].generation;
      assert g <= z.store.nextGeneration;
      HandleInv(length, z, id, Rebound(h, g));
    }
  }

  /** The step of a run and the step of the store are the same. */
  lemma WriteStepIsWrite(length: Key -> nat, y: System, id: nat, off: int, src: Bytes)
    requires Inv(length, y) && id in y.handles && Open(y.store, y.handles[id].key.torrent, y.handles[id].life)
    ensures var key := y.handles[id].key; WriteStep(length, y, id, off, src).store == Write(y.store, key, off, src, length(key))
  {
    StagedInv(length, y, y.handles[id].key);
  }

  lemma HashInv(length: Key -> nat, y: System, id: nat, n: nat, resident: Option<Bytes>)
    requires Inv(length, y) && id in y.handles && y.handles[id].hashing.Some?
    ensures Inv(length, HashStep(length, y, id, n, resident))
  {
    var h := y.handles[id];
    var off := |h.hashing.value.sofar|;
    if off + n <= length(h.key) {
      var (s, reply) := Fetch(y.store, h.key, h.life, off, n, resident);
      FetchWithin(y.store, h.key, h.life, off, n, resident);
      ShrinkInv(length, y, s);
      if reply.Served? && !reply.short {
        HashGrows(length, y, h, n, resident);
      }
      HandleInv(length, y.(store := s), id, HashStep(length, y, id, n, resident).handles[id]);
    }
  }

  /** Bytes served from the live buffer extend what was already handed over. */
  lemma FollowsMore(buf: Staging, arrived: map<int, byte>, length: nat, p: Progress, n: nat)
    requires Holds(buf, arrived, length) && Follows(buf, p) && |p.sofar| + n <= length
    requires Covers(buf.received, |p.sofar|, |p.sofar| + n)
    ensures Follows(buf, p.(sofar := p.sofar + buf.data[|p.sofar|..|p.sofar| + n]))
  {
    if n > 0 {
      CoversExact(buf.received, |p.sofar|, |p.sofar| + n);
    }
  }

  lemma HashGrows(length: Key -> nat, y: System, h: Handle, n: nat, resident: Option<Bytes>)
    requires Buffers(length, y) && h.hashing.Some? && Faithful(y.store, y.past.tainted, h)
    requires |h.hashing.value.sofar| + n <= length(h.key)
    requires var reply := Fetch(y.store, h.key, h.life, |h.hashing.value.sofar|, n, resident).1;
             reply.Served? && !reply.short
    ensures var (s, reply) := Fetch(y.store, h.key, h.life, |h.hashing.value.sofar|, n, resident);
      Faithful(s, y.past.tainted, h.(hashing := Some(h.hashing.value.(sofar := h.hashing.value.sofar + reply.bytes))))
  {
    if h.key in y.store.staging && Follows(y.store.staging[h.key], h.hashing.value) {
      var buf := y.store.staging[h.key];
      FollowsMore(buf, y.past.arrived[buf.generation], length(h.key), h.hashing.value, n);
    }
  }

  lemma FinishInv(length: Key -> nat, y: System, id: nat, has: bool)
    requires Inv(length, y) && id in y.handles && y.handles[id].hashing.Some?
    ensures Inv(length, FinishStep(length, y, id, has))
  {
    var h := y.handles[id];
    var p := h.hashing.value;
    HandleInv(length, y, id, Abort(h));
    var done := y.(handles := y.handles[id := Abort(h)]);
    var z := FinishStep(length, y, id, has);
    if z != done {
      forall k ensures Token(z.store, z.past, k) && Streams(z.store, z.past, k) {
        FinishToken(length, y, id, has, k);
        FinishStreams(length, y, id, has, k);
      }
      forall j | j in z.handles ensures Faithful(z.store, z.past.tainted, z.handles[j]) {
        assert Faithful(done.store, done.past.tainted, done.handles[j]);
      }
    }
  }

  /** A hash that may issue the token and did not stray was handed the whole buffer. */
  lemma FinishWhole(length: Key -> nat, y: System, h: Handle, has: bool)
    requires Buffers(length, y) && Faithful(y.store, y.past.tainted, h) && h.generation !in y.past.tainted
    requires h.hashing.Some? && |h.hashing.value.sofar| == length(h.key) && h.key in y.store.staging
    requires Verifies(y.store, h.key, h.life, h.generation, length(h.key), has)
    ensures var buf := y.store.staging[h.key];
      && (Strays(y.store, h) <==> h.hashing.value.sofar != buf.data) && Prefix(buf, buf.data)
  {
    var buf, sofar := y.store.staging[h.key], h.hashing.value.sofar;
    if length(h.key) > 0 {
      CoversExact(buf.received, 0, length(h.key));
    }
    if sofar != buf.data {
      assert exists b :: 0 <= b < |sofar| && sofar[b] != buf.data[b];
    }
  }

  lemma FinishToken(length: Key -> nat, y: System, id: nat, has: bool, k: Key)
    requires Inv(length, y) && id in y.handles && y.handles[id].hashing.Some?
    ensures var z := FinishStep(length, y, id, has); Token(z.store, z.past, k)
  {
    assert Token(y.store, y.past, k);
    var h := y.handles[id];
    if h.key in y.store.staging && |h.hashing.value.sofar| == length(h.key) && h.generation !in y.past.tainted
       && Verifies(y.store, h.key, h.life, h.generation, length(h.key), has) {
      FinishWhole(length, y, h, has);
    }
  }

  lemma FinishStreams(length: Key -> nat, y: System, id: nat, has: bool, k: Key)
    requires Inv(length, y) && id in y.handles && y.handles[id].hashing.Some?
    ensures var z := FinishStep(length, y, id, has); Streams(z.store, z.past, k)
  {
    assert Streams(y.store, y.past, k);
    var h := y.handles[id];
    if h.key in y.store.staging && |h.hashing.value.sofar| == length(h.key) && h.generation !in y.past.tainted
       && Verifies(y.store, h.key, h.life, h.generation, length(h.key), has) {
      FinishWhole(length, y, h, has);
    }
  }

  lemma StoreStepInv(length: Key -> nat, y: System, op: Op)
    requires Inv(length, y)
    requires op.Begin? || op.CloseTorrent? || op.CloseLife? || op.CloseStore?
    ensures Inv(length, Step(length, y, op))
  {
    match op
    case Begin(t) => ShrinkInv(length, y, OpenTorrent(y.store, t).0);
    case CloseTorrent(t) =>
      if t in y.store.torrents {
        EndLifeWithin(y.store, t, y.store.torrents[t]);
        ShrinkInv(length, y, EndLife(y.store, t, y.store.torrents[t]));
      }
    case CloseLife(t, life) =>
      EndLifeWithin(y.store, t, life);
      ShrinkInv(length, y, EndLife(y.store, t, life));
    case CloseStore => ShrinkInv(length, y, CloseAll(y.store));
  }

  lemma FetchWithin(s: Store, key: Key, life: nat, off: int, n: nat, resident: Option<Bytes>)
    requires Epochs(s)
    ensures var t := Fetch(s, key, life, off, n, resident).0;
      Within(t, s) && t == s.(lastRead := t.lastRead)
  {
  }

  lemma MarkStepInv(length: Key -> nat, y: System, op: Op)
    requires Inv(length, y)
    requires op.ReadAt? || op.MarkComplete? || op.MarkNotComplete?
    ensures Inv(length, Step(length, y, op))
  {
    if op.id in y.handles {
      var h := y.handles[op.id];
      match op
      case ReadAt(id, off, n) =>
        var resident := Resident(y.cache, h.key);
        FetchWithin(y.store, h.key, h.life, off, n, resident);
        ShrinkInv(length, y, Fetch(y.store, h.key, h.life, off, n, resident).0);
      case MarkComplete(id) => ShrinkInv(length, y, Promote(y.store, h.key));
      case MarkNotComplete(id) => ShrinkInv(length, y, Discard(y.store, h.key, h.generation));
    }
  }

  lemma HandleStepInv(length: Key -> nat, y: System, op: Op)
    requires Inv(length, y)
    requires op.Attach? || op.WriteAt? || op.StartHash? || op.HashNext? || op.FinishHash?
    ensures Inv(length, Step(length, y, op))
  {
    if op.Attach? {
      HandleInv(length, y, op.id, Handle(op.key, op.life, Epoch(y.store, op.key), None));
    } else if op.id in y.handles {
      match op
      case WriteAt(id, off, src) => WriteInv(length, y, id, off, src);
      case StartHash(id) =>
        assert Faithful(y.store, y.past.tainted, y.handles[id]);
        HandleInv(length, y, id, y.handles[id].(hashing := Some(Progress([], 0))));
      case HashNext(id, n) =>
        if y.handles[id].hashing.Some? { HashInv(length, y, id, n, Resident(y.cache, y.handles[id].key)); }
      case FinishHash(id) =>
        if y.handles[id].hashing.Some? { FinishInv(length, y, id, y.handles[id].key in y.cache.items); }
    }
  }

  lemma StepInv(length: Key -> nat, y: System, op: Op)
    requires Inv(length, y)
    ensures Inv(length, Step(length, y, op))
  {
    if op.Begin? || op.CloseTorrent? || op.CloseLife? || op.CloseStore? {
      StoreStepInv(length, y, op);
    } else if op.Traffic? {
      CacheFree(length, y, op.cache);
    } else if op.ReadAt? || op.MarkComplete? || op.MarkNotComplete? {
      MarkStepInv(length, y, op);
    } else {
      HandleStepInv(length, y, op);
    }
  }

  // --------------------------------------------------------------------- runs

  /** One step of a run; the buffers are always in order, as RunInv shows. */
  ghost function Next(length: Key -> nat, y: System, op: Op): System {
    if Buffers(length, y) then Step(length, y, op) else y
  }

  /** The system after the given operations, in this interleaving. */
  ghost function After(length: Key -> nat, x: System, ops: seq<Op>): System {
    if ops == [] then x else Next(length, After(length, x, ops[..|ops| - 1]), ops[|ops| - 1])
  }

  /** A new store over any cache. */
  function Fresh(cache: C.State): System {
    System(NewStore(), cache, map[], Past({}, {}, map[]))
  }

  lemma {:induction false} AfterInv(length: Key -> nat, x: System, ops: seq<Op>)
    requires Inv(length, x)
    ensures Inv(length, After(length, x, ops))
  {
    if ops != [] {
      AfterInv(length, x, ops[..|ops| - 1]);
      StepInv(length, After(length, x, ops[..|ops| - 1]), ops[|ops| - 1]);
    }
  }

  ghost function Run(length: Key -> nat, cache: C.State, ops: seq<Op>): System {
    After(length, Fresh(cache), ops)
  }

  /** In every interleaving of handles and lifetimes the protocol's invariant holds. */
  lemma RunInv(length: Key -> nat, cache: C.State, ops: seq<Op>)
    ensures Inv(length, Run(length, cache, ops))
  {
    AfterInv(length, Fresh(cache), ops);
  }

  /** In every interleaving: unless a received byte of that generation was overwritten, or a hash of it
      had strayed, the bytes MarkComplete puts in the cache are bytes that a completed hash of the same
      generation was handed; and every one of them arrived. */
  lemma PromotedWasHashed(length: Key -> nat, cache: C.State, ops: seq<Op>, y: System, id: nat)
    requires y == Run(length, cache, ops) && id in y.handles
    requires var h := y.handles[id]; Promotes(y.store, h.key, h.life, h.generation, length(h.key))
    ensures var h := y.handles[id];
      var buf := y.store.staging[h.key];
      && buf.generation == h.generation && |buf.data| == length(h.key)
      && h.generation in y.past.arrived
      && (forall b :: 0 <= b < length(h.key) ==>
            b in y.past.arrived[h.generation] && buf.data[b] == y.past.arrived[h.generation][b])
      && (h.generation !in y.past.tainted ==> (h.generation, buf.data) in y.past.handed)
      && Next(length, y, MarkComplete(id)).cache == C.Put(y.cache, h.key, buf.data)
  {
    RunInv(length, cache, ops);
    var h := y.handles[id];
    var buf := y.store.staging[h.key];
    assert Token(y.store, y.past, h.key);
    if length(h.key) > 0 {
      CoversExact(buf.received, 0, length(h.key));
    }
  }

  /** A chunk that changes no received byte leaves a complete buffer as it is, and any other does not. */
  lemma ChunkSame(buf: Staging, arrived: map<int, byte>, length: nat, off: nat, src: Bytes)
    requires Holds(buf, arrived, length) && off + |src| <= length && Prefix(buf, buf.data)
    ensures Chunk(buf, off, src).data == buf.data <==> Repeats(buf, off, src)
  {
    var next := Chunk(buf, off, src);
    if Repeats(buf, off, src) {
      ChunkPrefix(buf, arrived, length, off, src, buf.data);
    }
    if next.data == buf.data {
      forall b | off <= b < off + |src| && Has(buf.received, b) ensures buf.data[b] == src[b - off] {
        assert next.data[b] == src[b - off];
      }
    }
  }

  /** The exact condition under which promoted bytes stay hashed bytes. In every run, a write into a
      verified, untainted buffer leaves its token in force; what would then be promoted was handed to a
      hash of that generation if and only if the chunk changes no received byte. */
  lemma OverwriteDecides(length: Key -> nat, cache: C.State, ops: seq<Op>, y: System, id: nat, writer: nat, off: nat, src: Bytes)
    requires y == Run(length, cache, ops) && id in y.handles && writer in y.handles
    requires var h := y.handles[id];
      Promotes(y.store, h.key, h.life, h.generation, length(h.key)) && h.generation !in y.past.tainted
    requires y.handles[writer].key == y.handles[id].key && y.handles[writer].life == y.handles[id].life
    requires off + |src| <= length(y.handles[id].key)
    ensures var h := y.handles[id]; var buf := y.store.staging[h.key];
      var z := Next(length, y, WriteAt(writer, off, src));
      && id in z.handles && z.handles[id].generation == h.generation && |buf.data| == length(h.key)
      && Promotes(z.store, h.key, h.life, h.generation, length(h.key))
      && z.store.staging[h.key].data == Chunk(buf, off, src).data
      && ((h.generation, z.store.staging[h.key].data) in z.past.handed <==> Repeats(buf, off, src))
  {
    RunInv(length, cache, ops);
    var h := y.handles[id];
    var buf := y.store.staging[h.key];
    var arrived := y.past.arrived[buf.generation];
    assert Token(y.store, y.past, h.key) && Streams(y.store, y.past, h.key);
    ChunkCovers(buf, arrived, length(h.key), off, src);
    ChunkSame(buf, arrived, length(h.key), off, src);
  }

  /** The other way a promotion can miss the hash, and its exact condition. In every run, a hash that ends
      with a token for an untainted live buffer makes the piece promotable; its bytes were handed to a
      hash of that generation if and only if this hash did not stray or an earlier one had completed. */
  lemma StrayDecides(length: Key -> nat, cache: C.State, ops: seq<Op>, y: System, id: nat)
    requires y == Run(length, cache, ops) && id in y.handles && y.handles[id].hashing.Some?
    requires var h := y.handles[id];
      && h.key in y.store.staging && h.generation !in y.past.tainted && |h.hashing.value.sofar| == length(h.key)
      && Verifies(y.store, h.key, h.life, h.generation, length(h.key), h.key in y.cache.items)
    ensures var h := y.handles[id]; var buf := y.store.staging[h.key];
      var z := Next(length, y, FinishHash(id));
      && Promotes(z.store, h.key, h.life, h.generation, length(h.key)) && z.store.staging[h.key] == buf
      && ((h.generation, buf.data) in z.past.handed <==> !Strays(y.store, h) || exists d :: (h.generation, d) in y.past.handed)
  {
    RunInv(length, cache, ops);
    var h := y.handles[id];
    FinishWhole(length, y, h, h.key in y.cache.items);
    assert Streams(y.store, y.past, h.key);
  }

  // ---- runs in which the promoted byte was never hashed

  lemma AfterSnoc(length: Key -> nat, x: System, ops: seq<Op>, op: Op)
    requires Inv(length, After(length, x, ops))
    ensures After(length, x, ops + [op]) == Step(length, After(length, x, ops), op)
  {
    assert (ops + [op])[..|ops|] == ops;
  }

  function OneByte(): Key -> nat {
    k => 1
  }

  const PIECE := Key("t", 0)

  const BUFFER := Staging(1, [1 as byte], [Span(0, 1)])

  /** A one-byte piece is written and hashed. */
  const HASHED := [Begin("t"), Attach(0, PIECE, 0), WriteAt(0, 0, [1 as byte]), StartHash(0), HashNext(0, 1), FinishHash(0)]

  /** The state after the first k operations. */
  ghost predicate At(y: System, k: nat) {
    && y.store == Store(
         if k < 3 then map[] else map[PIECE := BUFFER], if k < 5 then map[] else map[PIECE := 1],
         if k < 3 then map[] else map[PIECE := 1], if k < 6 then map[] else map[PIECE := 1],
         if k < 1 then map[] else map["t" := 0], {}, if k < 1 then 0 else 1, if k < 3 then 0 else 1, false)
    && y.handles == (if k < 2 then map[] else map[0 := Handle(PIECE, 0, if k < 3 then 0 else 1,
         if k == 4 then Some(Progress([], 0)) else if k == 5 then Some(Progress([1], 0)) else None)])
    && y.past.tainted == {} && (k < 6 ==> y.past.handed == {})
  }

  lemma StepOpen(y: System, k: nat)
    requires Buffers(OneByte(), y) && k < 2 && At(y, k)
    ensures At(Step(OneByte(), y, HASHED[k]), k + 1)
  {
  }

  lemma StepWrite(y: System)
    requires Buffers(OneByte(), y) && At(y, 2)
    ensures At(Step(OneByte(), y, HASHED[2]), 3)
  {
    var blank := Staging(1, [0], []);
    assert seq(1, _ => 0 as byte) == [0];
    assert Repeats(blank, 0, [1 as byte]);
    assert Chunk(blank, 0, [1 as byte]) == BUFFER;
  }

  lemma StepHash(y: System, k: nat)
    requires Buffers(OneByte(), y) && 3 <= k < 6 && At(y, k)
    ensures At(Step(OneByte(), y, HASHED[k]), k + 1)
  {
    assert BUFFER.received[0].start <= 0 && 1 <= BUFFER.received[0].end;
    assert Covers(BUFFER.received, 0, 1);
    assert [] + BUFFER.data[0..1] == [1 as byte];
    var z := Step(OneByte(), y, HASHED[k]);
    assert k == 3 ==> z.handles[0] == Handle(PIECE, 0, 1, Some(Progress([], 0)));
    assert k == 4 ==> z.handles[0] == Handle(PIECE, 0, 1, Some(Progress([1], 0)));
    assert k == 5 ==> z.handles[0] == Handle(PIECE, 0, 1, None);
    assert z.handles == map[0 := z.handles[0]];
  }

  lemma {:induction false} HashedAt(cache: C.State, k: nat)
    requires k <= 6
    ensures At(Run(OneByte(), cache, HASHED[..k]), k)
  {
    if k > 0 {
      HashedAt(cache, k - 1);
      RunInv(OneByte(), cache, HASHED[..k - 1]);
      var y := Run(OneByte(), cache, HASHED[..k - 1]);
      assert HASHED[..k] == HASHED[..k - 1] + [HASHED[k - 1]];
      AfterSnoc(OneByte(), Fresh(cache), HASHED[..k - 1], HASHED[k - 1]);
      if k < 3 {
        StepOpen(y, k - 1);
      } else if k == 3 {
        StepWrite(y);
      } else {
        StepHash(y, k - 1);
      }
    }
  }

  lemma Verified(cache: C.State)
    ensures var y := Run(OneByte(), cache, HASHED);
      && PIECE in y.store.staging && y.store.staging[PIECE] == BUFFER
      && y.handles == map[0 := Handle(PIECE, 0, 1, None)] && y.past.tainted == {}
      && Promotes(y.store, PIECE, 0, 1, 1)
  {
    HashedAt(cache, 6);
    assert HASHED[..6] == HASHED;
    assert BUFFER.received[0].start <= 0 && 1 <= BUFFER.received[0].end;
  }

  /** Then the byte is overwritten: the piece may still be promoted, and no hash was handed that byte. */
  lemma OverwrittenByteIsPromoted(cache: C.State)
    ensures var y := Run(OneByte(), cache, HASHED + [WriteAt(0, 0, [2 as byte])]);
      && Promotes(y.store, PIECE, 0, 1, 1) && y.store.staging[PIECE].data == [2]
      && (1, [2 as byte]) !in y.past.handed
  {
    Verified(cache);
    var y := Run(OneByte(), cache, HASHED);
    RunInv(OneByte(), cache, HASHED);
    OverwriteDecides(OneByte(), cache, HASHED, y, 0, 0, 0, [2]);
    AfterSnoc(OneByte(), Fresh(cache), HASHED, WriteAt(0, 0, [2]));
    OtherByte();
  }

  lemma OtherByte()
    ensures !Repeats(BUFFER, 0, [2]) && Chunk(BUFFER, 0, [2]).data == [2]
  {
    assert BUFFER.received[0].start <= 0 < BUFFER.received[0].end;
    assert Has(BUFFER.received, 0);
  }

  /** A one-byte piece is resident with another value; its hash reads that value, then the handle is written
      through, and the new buffer is read once before the hash ends. */
  const STRAYED := [Begin("t"), Attach(0, PIECE, 0), StartHash(0), HashNext(0, 1), WriteAt(0, 0, [2 as byte]), ReadAt(0, 0, 1)]

  const REPLACEMENT := Staging(1, [2 as byte], [Span(0, 1)])

  /** The state after the first k of these operations. */
  ghost predicate StrayAt(y: System, k: nat) {
    && y.store == Store(
         if k < 5 then map[] else map[PIECE := REPLACEMENT], if k < 6 then map[] else map[PIECE := 1],
         if k < 5 then map[] else map[PIECE := 1], map[],
         if k < 1 then map[] else map["t" := 0], {}, if k < 1 then 0 else 1, if k < 5 then 0 else 1, false)
    && y.handles == (if k < 2 then map[] else map[0 := Handle(PIECE, 0, if k < 5 then 0 else 1,
         if k == 2 then None else Some(Progress(if k == 3 then [] else [1], if k < 5 then 0 else 1)))])
    && y.past.tainted == {} && y.past.handed == {} && (k < 4 ==> Resident(y.cache, PIECE) == Some([1]))
  }

  lemma StrayOpens(y: System, k: nat)
    requires Buffers(OneByte(), y) && k < 4 && StrayAt(y, k)
    ensures StrayAt(Step(OneByte(), y, STRAYED[k]), k + 1)
  {
    var z := Step(OneByte(), y, STRAYED[k]);
    assert [] + [1 as byte][0..1] == [1 as byte];
    assert k == 2 ==> z.handles[0] == Handle(PIECE, 0, 0, Some(Progress([], 0)));
    assert k == 3 ==> z.handles[0] == Handle(PIECE, 0, 0, Some(Progress([1], 0)));
    assert 2 <= k ==> z.handles == map[0 := z.handles[0]];
  }

  lemma StrayWrites(y: System)
    requires Buffers(OneByte(), y) && StrayAt(y, 4)
    ensures StrayAt(Step(OneByte(), y, STRAYED[4]), 5)
  {
    var blank := Staging(1, [0], []);
    assert seq(1, _ => 0 as byte) == [0];
    assert Repeats(blank, 0, [2 as byte]);
    assert Chunk(blank, 0, [2 as byte]) == REPLACEMENT;
    var z := Step(OneByte(), y, STRAYED[4]);
    assert z.handles[0] == Handle(PIECE, 0, 1, Some(Progress([1], 1)));
    assert z.handles == map[0 := z.handles[0]];
  }

  lemma StrayReads(y: System)
    requires Buffers(OneByte(), y) && StrayAt(y, 5)
    ensures StrayAt(Step(OneByte(), y, STRAYED[5]), 6)
  {
    assert REPLACEMENT.received[0].start <= 0 && 1 <= REPLACEMENT.received[0].end;
    assert Covers(REPLACEMENT.received, 0, 1);
  }

  lemma {:induction false} StrayedAt(cache: C.State, k: nat)
    requires k <= 6 && Resident(cache, PIECE) == Some([1])
    ensures StrayAt(Run(OneByte(), cache, STRAYED[..k]), k)
  {
    if k > 0 {
      StrayedAt(cache, k - 1);
      RunInv(OneByte(), cache, STRAYED[..k - 1]);
      var y := Run(OneByte(), cache, STRAYED[..k - 1]);
      assert STRAYED[..k] == STRAYED[..k - 1] + [STRAYED[k - 1]];
      AfterSnoc(OneByte(), Fresh(cache), STRAYED[..k - 1], STRAYED[k - 1]);
      if k < 5 {
        StrayOpens(y, k - 1);
      } else if k == 5 {
        StrayWrites(y);
      } else {
        StrayReads(y);
      }
    }
  }

  /** When that hash ends, the piece may be promoted, and no hash was handed its byte. */
  lemma StrayedByteIsPromoted(cache: C.State)
    requires Resident(cache, PIECE) == Some([1])
    ensures var y := Run(OneByte(), cache, STRAYED + [FinishHash(0)]);
      && Promotes(y.store, PIECE, 0, 1, 1) && y.store.staging[PIECE].data == [2]
      && (1, [2 as byte]) !in y.past.handed
  {
    StrayedAt(cache, 6);
    assert STRAYED[..6] == STRAYED;
    RunInv(OneByte(), cache, STRAYED);
    var y := Run(OneByte(), cache, STRAYED);
    AfterSnoc(OneByte(), Fresh(cache), STRAYED, FinishHash(0));
    assert REPLACEMENT.received[0].start <= 0 && 1 <= REPLACEMENT.received[0].end;
    StrayDecides(OneByte(), cache, STRAYED, y, 0);
  }

  lemma ChunkCovers(buf: Staging, arrived: map<int, byte>, length: nat, off: nat, src: Bytes)
    requires Holds(buf, arrived, length) && off + |src| <= length && Covers(buf.received, 0, length)
    ensures |Chunk(buf, off, src).data| == length && Covers(Chunk(buf, off, src).received, 0, length)
    ensures Chunk(buf, off, src).data[off..off + |src|] == src
  {
    if src != [] {
      AbsorbExact(buf.received, off, off + |src|);
      CoversExact(buf.received, 0, length);
      CoversExact(Chunk(buf, off, src).received, 0, length);
    }
  }

  /** A window served from the live buffer is made of delivered bytes. */
  lemma FetchArrived(s: Store, key: Key, life: nat, off: int, n: nat, arrived: map<int, byte>, length: nat)
    requires key in s.staging && Holds(s.staging[key], arrived, length)
    requires Fetch(s, key, life, off, n, None).1.Served?
    ensures var bytes := Fetch(s, key, life, off, n, None).1.bytes;
      |bytes| == n && forall i :: 0 <= i < n ==> off + i in arrived && bytes[i] == arrived[off + i]
  {
    if n > 0 {
      CoversExact(s.staging[key].received, off, off + n);
    }
  }

  /** In every interleaving a read served from staging returns only delivered bytes. */
  lemma ReadsOnlyArrived(length: Key -> nat, cache: C.State, ops: seq<Op>, y: System, key: Key, life: nat, off: int, n: nat)
    requires y == Run(length, cache, ops) && key in y.store.staging
    requires Fetch(y.store, key, life, off, n, None).1.Served?
    ensures var bytes := Fetch(y.store, key, life, off, n, None).1.bytes;
      var g := y.store.staging[key].generation;
      && |bytes| == n && g in y.past.arrived
      && (forall i :: 0 <= i < n ==> off + i in y.past.arrived[g] && bytes[i] == y.past.arrived[g][off + i])
  {
    RunInv(length, cache, ops);
    FetchArrived(y.store, key, life, off, n, y.past.arrived[y.store.staging[key].generation], length(key));
  }

  // ------------------------------------------------------------ ended lifetimes

  /** The lifetime is over: closed, replaced, or the whole store is closed. */
  predicate Dead(s: Store, torrent: string, life: nat) {
    life < s.nextLife && !Open(s, torrent, life)
  }

  ghost predicate SameLives(t: Store, s: Store) {
    t.torrents == s.torrents && t.ended == s.ended && t.nextLife == s.nextLife && t.closed == s.closed
  }

  lemma StagedKeepsLives(length: Key -> nat, y: System, key: Key)
    ensures SameLives(Staged(length, y, key).store, y.store)
  {
  }

  lemma ChunkedKeepsLives(y: System, key: Key, off: int, src: Bytes)
    requires key in y.store.staging && y.store.staging[key].generation in y.past.arrived
    ensures SameLives(Chunked(y, key, off, src).store, y.store)
  {
  }

  lemma WriteKeepsLives(length: Key -> nat, y: System, id: nat, off: int, src: Bytes)
    requires Buffers(length, y) && id in y.handles
    ensures SameLives(WriteStep(length, y, id, off, src).store, y.store)
  {
    var key := y.handles[id].key;
    StagedKeepsLives(length, y, key);
    ChunkedKeepsLives(Staged(length, y, key), key, off, src);
  }

  lemma DeadLives(t: Store, s: Store, torrent: string, life: nat)
    requires SameLives(t, s) && Dead(s, torrent, life)
    ensures Dead(t, torrent, life)
  {
  }

  lemma HandleKeepsLives(length: Key -> nat, y: System, op: Op)
    requires Buffers(length, y)
    requires !(op.Begin? || op.CloseTorrent? || op.CloseLife? || op.CloseStore?)
    ensures SameLives(Step(length, y, op).store, y.store)
  {
    match op
    case WriteAt(id, off, src) => if id in y.handles { WriteKeepsLives(length, y, id, off, src); }
    case HashNext(id, n) =>
    case _ =>
  }

  lemma DeadStep(length: Key -> nat, y: System, op: Op, torrent: string, life: nat)
    requires Inv(length, y) && Dead(y.store, torrent, life)
    ensures Dead(Step(length, y, op).store, torrent, life)
  {
    if op.Begin? || op.CloseTorrent? || op.CloseLife? || op.CloseStore? {
      DeadStays(length, y, op, torrent, life);
    } else {
      HandleKeepsLives(length, y, op);
      DeadLives(Step(length, y, op).store, y.store, torrent, life);
    }
  }

  lemma EndKeepsDead(s: Store, torrent: string, life: nat, t: string, l: nat)
    requires Dead(s, torrent, life)
    ensures Dead(EndLife(s, t, l), torrent, life)
  {
  }

  lemma DeadStays(length: Key -> nat, y: System, op: Op, torrent: string, life: nat)
    requires Buffers(length, y) && Dead(y.store, torrent, life)
    requires op.Begin? || op.CloseTorrent? || op.CloseLife? || op.CloseStore?
    ensures Dead(Step(length, y, op).store, torrent, life)
  {
    match op
    case CloseTorrent(t) => if t in y.store.torrents { EndKeepsDead(y.store, torrent, life, t, y.store.torrents[t]); }
    case CloseLife(t, l) => EndKeepsDead(y.store, torrent, life, t, l);
    case _ =>
  }

  /** A lifetime that ended never opens again, whatever happens afterwards. */
  lemma {:induction false} DeadForever(length: Key -> nat, x: System, ops: seq<Op>, torrent: string, life: nat)
    requires Inv(length, x) && Dead(x.store, torrent, life)
    ensures Dead(After(length, x, ops).store, torrent, life)
  {
    if ops != [] {
      DeadForever(length, x, ops[..|ops| - 1], torrent, life);
      AfterInv(length, x, ops[..|ops| - 1]);
      DeadStep(length, After(length, x, ops[..|ops| - 1]), ops[|ops| - 1], torrent, life);
    }
  }

  /** The handle an operation acts through, if any. */
  ghost predicate Through(y: System, op: Op, id: nat) {
    && id in y.handles
    && (op == MarkComplete(id) || op == MarkNotComplete(id)
        || (op.WriteAt? && op.id == id) || (op.ReadAt? && op.id == id) || (op.StartHash? && op.id == id)
        || (op.HashNext? && op.id == id) || (op.FinishHash? && op.id == id))
  }

  /** After any further run, no operation through a handle of an ended lifetime touches the store or
      the cache: staging, tokens, epochs, lifetimes and cached pieces of later lifetimes are out of its
      reach. */
  lemma DeadHandleInert(length: Key -> nat, x: System, ops: seq<Op>, y: System, op: Op, id: nat)
    requires Inv(length, x) && y == After(length, x, ops) && Through(y, op, id)
    requires Dead(x.store, y.handles[id].key.torrent, y.handles[id].life)
    ensures Next(length, y, op).store == y.store && Next(length, y, op).cache == y.cache
  {
    AfterInv(length, x, ops);
    DeadForever(length, x, ops, y.handles[id].key.torrent, y.handles[id].life);
  }

  /** The lifetime was begun and is no torrent's current one any more. */
  ghost predicate Retired(s: Store, life: nat) {
    life < s.nextLife && forall t :: t in s.torrents ==> s.torrents[t] != life
  }

  /** The operation comes from a retired lifetime: through one of its handles, or its own late close. */
  ghost predicate Late(y: System, op: Op) {
    || (exists id :: Through(y, op, id) && Retired(y.store, y.handles[id].life))
    || (op.CloseLife? && Retired(y.store, op.life))
  }

  /** Nothing but closed bits of retired lifetimes differs, in what later lifetimes can see. */
  ghost predicate Undisturbed(x: System, y: System) {
    && y.cache == x.cache && y.store == x.store.(ended := y.store.ended)
    && x.store.ended <= y.store.ended && (forall life :: life in y.store.ended ==> life in x.store.ended || Retired(x.store, life))
    && (forall id :: id in x.handles ==> id in y.handles && y.handles[id].key == x.handles[id].key && y.handles[id].life == x.handles[id].life)
  }

  lemma LateStep(length: Key -> nat, x: System, y: System, op: Op)
    requires Inv(length, y) && Undisturbed(x, y) && Late(x, op)
    ensures Undisturbed(x, Next(length, y, op))
  {
    if op.CloseLife? {
      assert Retired(x.store, op.life);
    } else {
      var id :| Through(x, op, id) && Retired(x.store, x.handles[id].life);
      var h := y.handles[id];
      assert !Open(y.store, h.key.torrent, h.life);
      LateHandle(length, y, op, id);
    }
  }

  lemma LateHandle(length: Key -> nat, y: System, op: Op, id: nat)
    requires Buffers(length, y) && Through(y, op, id) && !Open(y.store, y.handles[id].key.torrent, y.handles[id].life)
    ensures var z := Next(length, y, op);
      && z.store == y.store && z.cache == y.cache
      && (forall j :: j in y.handles ==> j in z.handles && z.handles[j].key == y.handles[j].key && z.handles[j].life == y.handles[j].life)
  {
  }

  /** Any sequence of operations that come late, from lifetimes already replaced or closed, leaves every
      later lifetime as it was: open, with its buffers, tokens, epochs and cached pieces. */
  lemma {:induction false} LateRunInert(length: Key -> nat, x: System, ops: seq<Op>)
    requires Inv(length, x) && forall i :: 0 <= i < |ops| ==> Late(x, ops[i])
    ensures Undisturbed(x, After(length, x, ops))
    ensures forall t, life :: Open(x.store, t, life) <==> Open(After(length, x, ops).store, t, life)
  {
    if ops != [] {
      var front := ops[..|ops| - 1];
      LateRunInert(length, x, front);
      AfterInv(length, x, front);
      LateStep(length, x, After(length, x, front), ops[|ops| - 1]);
    }
    SameOpen(x, After(length, x, ops));
  }

  lemma SameOpen(x: System, y: System)
    requires Undisturbed(x, y)
    ensures forall t, life :: Open(x.store, t, life) <==> Open(y.store, t, life)
  {
  }
}
