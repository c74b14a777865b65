/** What runs of the piece store come to, computed from the operations alone: which bytes a buffer holds,
    what a read returns, when a hash earns its token, and what is gone for good. */
module StoreRuns {
  import opened Types
  import opened Spans
  import C = CacheModel
  import opened StoreModel

  // -------------------------------------------------------------------- delivered bytes

  /** The generation a write to the key goes to. */
  function Target(s: Store, key: Key): nat {
    if key in s.staging then s.staging[key].generation else s.nextGeneration + 1
  }

  /** A chunk that lands in a buffer of the generation. */
  ghost predicate Lands(length: Key -> nat, y: System, op: Op, g: nat) {
    && op.WriteAt? && op.id in y.handles
    && var h := y.handles[op.id];
       && Open(y.store, h.key.torrent, h.life) && 0 <= op.off && op.off + |op.src| <= length(h.key)
       && Target(y.store, h.key) == g
  }

  /** What peers delivered into a generation, chunk after chunk. */
  ghost function Delivered(length: Key -> nat, cache: C.State, ops: seq<Op>, g: nat): map<int, byte> {
    if ops == [] then map[]
    else
      var front, op := ops[..|ops| - 1], ops[|ops| - 1];
      var before := Delivered(length, cache, front, g);
      if Lands(length, Run(length, cache, front), op, g) then Arrive(before, op.off, op.src) else before
  }

  ghost function Arrivals(past: Past, g: nat): map<int, byte> {
    if g in past.arrived then past.arrived[g] else map[]
  }

  ghost predicate Numbered(y: System) {
    forall g :: g in y.past.arrived ==> g <= y.store.nextGeneration
  }

  lemma StagedArrives(length: Key -> nat, y: System, key: Key, g: nat)
    requires Inv(length, y) && Numbered(y)
    ensures var z := Staged(length, y, key);
      && Numbered(z) && Arrivals(z.past, g) == Arrivals(y.past, g)
      && key in z.store.staging && z.store.staging[key].generation == Target(y.store, key)
      && |z.store.staging[key].data| == length(key)
  {
  }

  lemma ChunkedArrives(y: System, key: Key, off: int, src: Bytes, g: nat)
    requires key in y.store.staging && y.store.staging[key].generation in y.past.arrived
    ensures var z := Chunked(y, key, off, src); var buf := y.store.staging[key];
      && z.store.nextGeneration == y.store.nextGeneration && (Numbered(y) ==> Numbered(z))
      && Arrivals(z.past, g) == (if InRange(off, |src|, |buf.data|) && buf.generation == g
                                 then Arrive(Arrivals(y.past, g), off, src) else Arrivals(y.past, g))
  {
  }

  lemma WriteArrives(length: Key -> nat, y: System, id: nat, off: int, src: Bytes, g: nat)
    requires Inv(length, y) && Numbered(y) && id in y.handles
    ensures var z := WriteStep(length, y, id, off, src);
      && Numbered(z)
      && Arrivals(z.past, g) ==
           (if Lands(length, y, WriteAt(id, off, src), g) then Arrive(Arrivals(y.past, g), off, src) else Arrivals(y.past, g))
  {
    var h := y.handles[id];
    if Open(y.store, h.key.torrent, h.life) {
      StagedInv(length, y, h.key);
      StagedArrives(length, y, h.key, g);
      ChunkedArrives(Staged(length, y, h.key), h.key, off, src, g);
    }
  }

  lemma OtherArrives(length: Key -> nat, y: System, op: Op)
    requires Buffers(length, y) && (op.WriteAt? ==> op.id !in y.handles)
    ensures Step(length, y, op).past.arrived == y.past.arrived
    ensures Step(length, y, op).store.nextGeneration == y.store.nextGeneration
  {
    if op.ReadAt? || op.HashNext? {
      ReadLastRead(length, y, op, Key("", 0));
    } else if !op.WriteAt? {
      OtherSheds(length, y, op);
    }
    OtherPast(length, y, op);
  }

  lemma OtherPast(length: Key -> nat, y: System, op: Op)
    requires Buffers(length, y) && (op.WriteAt? ==> op.id !in y.handles)
    ensures Step(length, y, op).past.arrived == y.past.arrived
  {
  }

  lemma StepArrives(length: Key -> nat, y: System, op: Op, g: nat)
    requires Inv(length, y) && Numbered(y)
    ensures var z := Step(length, y, op);
      && Numbered(z)
      && Arrivals(z.past, g) == (if Lands(length, y, op, g) then Arrive(Arrivals(y.past, g), op.off, op.src) else Arrivals(y.past, g))
  {
    if op.WriteAt? && op.id in y.handles {
      WriteArrives(length, y, op.id, op.off, op.src, g);
    } else {
      OtherArrives(length, y, op);
    }
  }

  lemma {:induction false} ArrivedIsDelivered(length: Key -> nat, cache: C.State, ops: seq<Op>, g: nat)
    ensures var y := Run(length, cache, ops); Numbered(y) && Arrivals(y.past, g) == Delivered(length, cache, ops, g)
  {
    if ops != [] {
      var front := ops[..|ops| - 1];
      RunInv(length, cache, front);
      ArrivedIsDelivered(length, cache, front, g);
      StepArrives(length, Run(length, cache, front), ops[|ops| - 1], g);
    }
  }

  /** In every run a live buffer has received exactly the bytes delivered into its generation, and each
      holds the value delivered last. */
  lemma BufferIsDelivered(length: Key -> nat, cache: C.State, ops: seq<Op>, key: Key, b: int)
    requires key in Run(length, cache, ops).store.staging
    ensures var buf := Run(length, cache, ops).store.staging[key];
      var bytes := Delivered(length, cache, ops, buf.generation);
      && |buf.data| == length(key) && (Has(buf.received, b) <==> b in bytes)
      && (b in bytes ==> 0 <= b < length(key) && buf.data[b] == bytes[b])
  {
    RunInv(length, cache, ops);
    ArrivedIsDelivered(length, cache, ops, Run(length, cache, ops).store.staging[key].generation);
  }

  // ------------------------------------------------------------------------------- reads

  /** What a read returns, byte by byte: from a live buffer, the delivered bytes if and only if every byte
      asked for was delivered; otherwise the resident bytes, in full if and only if they reach that far,
      and short by exactly what is missing; nothing in an ended lifetime. */
  ghost predicate Answers(held: Option<map<int, byte>>, resident: Option<Bytes>, off: nat, n: nat, reply: Reply) {
    if held.Some? then
      if forall b :: off <= b < off + n ==> b in held.value then
        reply.Served? && !reply.short && |reply.bytes| == n && forall i :: 0 <= i < n ==> off + i in held.value && reply.bytes[i] == held.value[off + i]
      else reply == Missing
    else if resident.None? then reply == Missing
    else
      && reply.Served? && (reply.short <==> off + n > |resident.value|)
      && |reply.bytes| == (if off + n <= |resident.value| then n else if off <= |resident.value| then |resident.value| - off else 0)
      && forall i :: 0 <= i < |reply.bytes| ==> off + i < |resident.value| && reply.bytes[i] == resident.value[off + i]
  }

  lemma FetchAnswers(s: Store, key: Key, life: nat, off: nat, n: nat, resident: Option<Bytes>, bytes: map<int, byte>, length: nat)
    requires Open(s, key.torrent, life) && n > 0 && (key in s.staging ==> Holds(s.staging[key], bytes, length))
    ensures Answers(if key in s.staging then Some(bytes) else None, resident, off, n, Fetch(s, key, life, off, n, resident).1)
  {
    if key in s.staging {
      CoversExact(s.staging[key].received, off, off + n);
      assert off + n > length ==> off + n - 1 !in bytes;
    }
  }

  /** In every run: what a read of a piece returns. */
  lemma ReadDecides(length: Key -> nat, cache: C.State, ops: seq<Op>, key: Key, life: nat, off: nat, n: nat)
    requires n > 0
    ensures var y := Run(length, cache, ops);
      var reply := Fetch(y.store, key, life, off, n, Resident(y.cache, key)).1;
      if !Open(y.store, key.torrent, life) then reply == Closed
      else Answers(if key in y.store.staging then Some(Delivered(length, cache, ops, y.store.staging[key].generation)) else None,
                   Resident(y.cache, key), off, n, reply)
  {
    var y := Run(length, cache, ops);
    RunInv(length, cache, ops);
    if Open(y.store, key.torrent, life) {
      var bytes := map[];
      if key in y.store.staging {
        bytes := y.past.arrived[y.store.staging[key].generation];
        ArrivedIsDelivered(length, cache, ops, y.store.staging[key].generation);
      }
      FetchAnswers(y.store, key, life, off, n, Resident(y.cache, key), bytes, length(key));
    }
  }

  // ----------------------------------------------------------------------------- tokens

  /** The operation reads the key's live buffer with success. */
  ghost predicate ReadsBuffer(length: Key -> nat, y: System, op: Op, key: Key) {
    && (op.ReadAt? || op.HashNext?) && op.id in y.handles && y.handles[op.id].key == key && key in y.store.staging
    && var h := y.handles[op.id];
       if op.ReadAt? then Fetch(y.store, key, h.life, op.off, op.n, None).1.Served?
       else
         && h.hashing.Some? && |h.hashing.value.sofar| + op.n <= length(key)
         && Fetch(y.store, key, h.life, |h.hashing.value.sofar|, op.n, None).1.Served?
  }

  /** The operation opens a new buffer of the key. */
  ghost predicate OpensBuffer(y: System, op: Op, key: Key) {
    && op.WriteAt? && op.id in y.handles && y.handles[op.id].key == key && key !in y.store.staging
    && Open(y.store, key.torrent, y.handles[op.id].life)
  }

  /** Whether the key's buffer was read since it was opened. */
  ghost function ReadSince(length: Key -> nat, cache: C.State, ops: seq<Op>, key: Key): bool {
    if ops == [] then false
    else
      var front, op := ops[..|ops| - 1], ops[|ops| - 1];
      var y := Run(length, cache, front);
      if OpensBuffer(y, op, key) then false
      else ReadsBuffer(length, y, op, key) || ReadSince(length, cache, front, key)
  }

  ghost predicate LastReadLive(s: Store, key: Key) {
    key in s.staging && key in s.lastRead && s.lastRead[key] == s.staging[key].generation
  }

  /** A write changes the buffer and the last read of its own key only, and these only by opening a buffer. */
  lemma WriteTouches(s: Store, at: Key, off: int, src: Bytes, length: nat, key: Key)
    ensures var t := Write(s, at, off, src, length);
      if key == at && key !in s.staging then key in t.staging && !LastReadLive(t, key) && t.staging[key].generation == s.nextGeneration + 1
      else
        && (key in t.staging <==> key in s.staging) && (LastReadLive(t, key) <==> LastReadLive(s, key))
        && (key in s.staging ==> t.staging[key].generation == s.staging[key].generation)
  {
  }

  lemma WriteLastRead(length: Key -> nat, y: System, op: Op, key: Key)
    requires Inv(length, y) && op.WriteAt?
    ensures var z := Step(length, y, op);
      && (OpensBuffer(y, op, key) ==> !LastReadLive(z.store, key))
      && (!OpensBuffer(y, op, key) ==> (key in z.store.staging <==> key in y.store.staging)
                                       && (LastReadLive(z.store, key) <==> LastReadLive(y.store, key)))
  {
    if op.id in y.handles && Open(y.store, y.handles[op.id].key.torrent, y.handles[op.id].life) {
      var at := y.handles[op.id].key;
      WriteStepIsWrite(length, y, op.id, op.off, op.src);
      WriteTouches(y.store, at, op.off, op.src, length(at), key);
    }
  }

  lemma FetchTouches(s: Store, at: Key, life: nat, off: int, n: nat, resident: Option<Bytes>, key: Key)
    ensures var (t, reply) := Fetch(s, at, life, off, n, resident);
      && t.staging == s.staging && t.nextGeneration == s.nextGeneration
      && (LastReadLive(t, key) <==>
            LastReadLive(s, key) || (key == at && key in s.staging && Fetch(s, at, life, off, n, None).1.Served?))
  {
  }

  lemma ReadLastRead(length: Key -> nat, y: System, op: Op, key: Key)
    requires Buffers(length, y) && (op.ReadAt? || op.HashNext?)
    ensures var z := Step(length, y, op);
      && z.store.staging == y.store.staging && z.store.nextGeneration == y.store.nextGeneration
      && (LastReadLive(z.store, key) <==> LastReadLive(y.store, key) || ReadsBuffer(length, y, op, key))
  {
    if op.id in y.handles {
      var h := y.handles[op.id];
      var off := if op.ReadAt? then op.off else if h.hashing.Some? then |h.hashing.value.sofar| else 0;
      FetchTouches(y.store, h.key, h.life, off, op.n, Resident(y.cache, h.key), key);
    }
  }

  /** What is left of the buffers and last reads is as it was. */
  ghost predicate Sheds(t: Store, s: Store) {
    && t.nextGeneration == s.nextGeneration
    && (forall k :: k in t.staging ==> k in s.staging && t.staging[k] == s.staging[k])
    && (forall k :: k in t.staging ==> (k in t.lastRead <==> k in s.lastRead))
    && (forall k :: k in t.staging && k in s.lastRead ==> t.lastRead[k] == s.lastRead[k])
  }

  lemma MarkSheds(s: Store, key: Key, generation: nat)
    ensures Sheds(Promote(s, key), s) && Sheds(Discard(s, key, generation), s)
  {
  }

  lemma EndSheds(s: Store, torrent: string, life: nat)
    ensures Sheds(EndLife(s, torrent, life), s)
  {
  }

  lemma CloseSheds(s: Store, torrent: string)
    ensures Sheds(CloseAll(s), s) && Sheds(OpenTorrent(s, torrent).0, s)
  {
  }

  /** Only writes open buffers, and only reads record one. */
  lemma OtherSheds(length: Key -> nat, y: System, op: Op)
    requires Buffers(length, y) && !op.WriteAt? && !op.ReadAt? && !op.HashNext?
    ensures Sheds(Step(length, y, op).store, y.store)
  {
    match op
    case Begin(t) => CloseSheds(y.store, t);
    case MarkComplete(id) => if id in y.handles { MarkSheds(y.store, y.handles[id].key, 0); }
    case MarkNotComplete(id) => if id in y.handles { MarkSheds(y.store, y.handles[id].key, y.handles[id].generation); }
    case CloseTorrent(t) => if t in y.store.torrents { EndSheds(y.store, t, y.store.torrents[t]); }
    case CloseLife(t, life) => EndSheds(y.store, t, life);
    case CloseStore => CloseSheds(y.store, "");
    case _ =>
  }

  /** In every run the recorded last read of a live buffer says whether it was read since it was opened. */
  lemma {:induction false} LastReadMeans(length: Key -> nat, cache: C.State, ops: seq<Op>, key: Key)
    ensures var y := Run(length, cache, ops);
      key in y.store.staging ==> (LastReadLive(y.store, key) <==> ReadSince(length, cache, ops, key))
  {
    if ops != [] {
      var front, op := ops[..|ops| - 1], ops[|ops| - 1];
      var y := Run(length, cache, front);
      RunInv(length, cache, front);
      LastReadMeans(length, cache, front, key);
      if op.WriteAt? {
        WriteLastRead(length, y, op, key);
      } else if op.ReadAt? || op.HashNext? {
        ReadLastRead(length, y, op, key);
      } else {
        OtherSheds(length, y, op);
      }
    }
  }

  /** In every run a hash that ends earns the token of its handle's generation if and only if it was handed
      the whole piece in an open lifetime, that generation is the key's current one, and the piece is
      either resident or in a buffer that was delivered in full and read since it was opened. */
  lemma TokenDecides(length: Key -> nat, cache: C.State, ops: seq<Op>, y: System, id: nat)
    requires y == Run(length, cache, ops) && id in y.handles && y.handles[id].hashing.Some? && length(y.handles[id].key) > 0
    ensures var h := y.handles[id];
      var earned :=
        && |h.hashing.value.sofar| == length(h.key) && Open(y.store, h.key.torrent, h.life)
        && h.generation != 0 && h.generation == Epoch(y.store, h.key)
        && if h.key in y.store.staging then
             && ReadSince(length, cache, ops, h.key)
             && forall b :: 0 <= b < length(h.key) ==> b in Delivered(length, cache, ops, h.generation)
           else h.key in y.cache.items;
      var z := Next(length, y, FinishHash(id));
      z.store == (if earned then y.store.(verified := y.store.verified[h.key := h.generation]) else y.store)
  {
    var h := y.handles[id];
    RunInv(length, cache, ops);
    LastReadMeans(length, cache, ops, h.key);
    if h.key in y.store.staging {
      var g := y.store.staging[h.key].generation;
      ArrivedIsDelivered(length, cache, ops, g);
      CoversExact(y.store.staging[h.key].received, 0, length(h.key));
    }
  }

  // ---------------------------------------------------------------------- gone for good

  /** No buffer is of this generation, and none will be. */
  ghost predicate Spent(s: Store, g: nat) {
    g <= s.nextGeneration && forall k :: k in s.staging ==> s.staging[k].generation != g
  }

  lemma WriteSpent(length: Key -> nat, y: System, op: Op, g: nat)
    requires Inv(length, y) && op.WriteAt? && Spent(y.store, g)
    ensures Spent(Step(length, y, op).store, g)
  {
    if op.id in y.handles && Open(y.store, y.handles[op.id].key.torrent, y.handles[op.id].life) {
      var at := y.handles[op.id].key;
      WriteStepIsWrite(length, y, op.id, op.off, op.src);
      var t := Write(y.store, at, op.off, op.src, length(at));
      forall k | k in t.staging ensures t.staging[k].generation != g {
        WriteTouches(y.store, at, op.off, op.src, length(at), k);
      }
      assert t.nextGeneration >= y.store.nextGeneration;
    }
  }

  lemma StepSpent(length: Key -> nat, y: System, op: Op, g: nat)
    requires Inv(length, y) && Spent(y.store, g)
    ensures Spent(Step(length, y, op).store, g)
  {
    if op.WriteAt? {
      WriteSpent(length, y, op, g);
    } else {
      OtherArrives(length, y, op);
      if op.ReadAt? || op.HashNext? {
        ReadLastRead(length, y, op, Key("", 0));
      } else {
        OtherSheds(length, y, op);
      }
    }
  }

  lemma {:induction false} SpentForever(length: Key -> nat, y: System, ops: seq<Op>, g: nat)
    requires Inv(length, y) && Spent(y.store, g)
    ensures Spent(StoreModel.After(length, y, ops).store, g)
  {
    if ops != [] {
      SpentForever(length, y, ops[..|ops| - 1], g);
      AfterInv(length, y, ops[..|ops| - 1]);
      StepSpent(length, StoreModel.After(length, y, ops[..|ops| - 1]), ops[|ops| - 1], g);
    }
  }

  /** The operation takes the handle's own buffer away: it promotes or discards it. */
  ghost predicate Takes(length: Key -> nat, y: System, id: nat, op: Op) {
    && id in y.handles && y.handles[id].key in y.store.staging
    && var h := y.handles[id];
       || (op == MarkComplete(id) && Promotes(y.store, h.key, h.life, h.generation, length(h.key)))
       || (op == MarkNotComplete(id) && Open(y.store, h.key.torrent, h.life) && h.generation != 0
           && h.generation == y.store.staging[h.key].generation)
  }

  lemma TakenSpent(length: Key -> nat, y: System, id: nat, op: Op, key: Key)
    requires Inv(length, y) && Takes(length, y, id, op)
    ensures var h := y.handles[id]; var z := Step(length, y, op);
      && Spent(z.store, h.generation) && (key in z.store.staging <==> key in y.store.staging && key != h.key)
      && (key in z.store.staging ==> z.store.staging[key] == y.store.staging[key])
      && (op.MarkNotComplete? ==> h.key !in z.cache.items)
      && h.key !in z.store.lastRead
      && (op.MarkComplete? ==> h.key !in z.store.verified && z.cache == C.Put(y.cache, h.key, y.store.staging[h.key].data))
  {
    var h := y.handles[id];
    assert forall k :: k in y.store.staging && k != h.key ==> y.store.epochs[k] != y.store.epochs[h.key];
  }

  /** In every run a generation that was promoted or discarded has no buffer any more, so whatever comes
      later nothing of it is read, hashed or promoted again; other keys are left alone. */
  lemma TakenForever(length: Key -> nat, cache: C.State, ops: seq<Op>, id: nat, op: Op, more: seq<Op>, key: Key)
    requires Takes(length, Run(length, cache, ops), id, op)
    ensures var y := Run(length, cache, ops); var h := y.handles[id]; var z := Next(length, y, op);
      && Spent(StoreModel.After(length, z, more).store, h.generation)
      && (key in z.store.staging <==> key in y.store.staging && key != h.key)
      && (key in z.store.staging ==> z.store.staging[key] == y.store.staging[key])
      && (op.MarkNotComplete? ==> h.key !in z.cache.items)
      && (op.MarkComplete? ==> h.key !in z.store.verified && z.cache == C.Put(y.cache, h.key, y.store.staging[h.key].data))
  {
    var y := Run(length, cache, ops);
    RunInv(length, cache, ops);
    TakenSpent(length, y, id, op, key);
    StepInv(length, y, op);
    SpentForever(length, Step(length, y, op), more, y.handles[id].generation);
  }

  /** A handle of another generation cannot discard a buffer: only the cached value goes. */
  lemma StaleDiscardKeeps(length: Key -> nat, y: System, id: nat)
    requires Inv(length, y) && id in y.handles
    requires var h := y.handles[id];
      Open(y.store, h.key.torrent, h.life) && h.key in y.store.staging && y.store.staging[h.key].generation != h.generation
    ensures var z := Step(length, y, MarkNotComplete(id)); z.store == y.store && y.handles[id].key !in z.cache.items
  {
  }

  /** Closing the current lifetime of a torrent leaves nothing of it in any table, and the other torrents
      exactly as they were. */
  lemma EndLeavesNothing(s: Store, torrent: string, life: nat, key: Key)
    requires torrent in s.torrents && s.torrents[torrent] == life
    ensures var t := EndLife(s, torrent, life);
      && torrent !in t.torrents && !Open(t, torrent, life) && t.nextGeneration == s.nextGeneration
      && (key.torrent == torrent ==> key !in t.staging && key !in t.lastRead && key !in t.epochs && key !in t.verified)
      && (key.torrent != torrent ==>
            && (key in t.staging <==> key in s.staging) && (key in s.staging ==> t.staging[key] == s.staging[key])
            && (key in t.epochs <==> key in s.epochs) && (key in s.epochs ==> t.epochs[key] == s.epochs[key])
            && (key in t.verified <==> key in s.verified) && (key in s.verified ==> t.verified[key] == s.verified[key])
            && (key in t.lastRead <==> key in s.lastRead) && (key in s.lastRead ==> t.lastRead[key] == s.lastRead[key]))
  {
  }

  /** An ended lifetime is open under no name, whether or not it was the current one. */
  lemma EndCloses(s: Store, torrent: string, life: nat, other: string)
    ensures !Open(EndLife(s, torrent, life), other, life)
    ensures forall l :: l != life && other != torrent ==> (Open(EndLife(s, torrent, life), other, l) <==> Open(s, other, l))
  {
  }

  /** Opening a torrent gives a handle on an open lifetime: the current one while it is open, else one
      that was never used before; a closed store gives none. */
  lemma OpensLifetime(s: Store, torrent: string)
    requires forall t :: t in s.ended ==> t < s.nextLife
    ensures var (t, life) := OpenTorrent(s, torrent);
      && (life.None? <==> s.closed)
      && (life.Some? ==> Open(t, torrent, life.value))
      && (life.Some? ==> if torrent in s.torrents && s.torrents[torrent] !in s.ended then life == Some(s.torrents[torrent]) && t == s
                         else life.value >= s.nextLife && t.nextLife > life.value)
      && (forall other, l :: other != torrent ==> (Open(t, other, l) <==> Open(s, other, l)))
  {
  }

  /** Closing the store leaves nothing in any table and no lifetime open. */
  lemma CloseLeavesNothing(s: Store, torrent: string, life: nat)
    ensures var t := CloseAll(s);
      && t.closed && !Open(t, torrent, life) && OpenTorrent(t, torrent).1.None?
      && t.staging == map[] && t.lastRead == map[] && t.epochs == map[] && t.verified == map[] && t.torrents == map[]
  {
  }

  // ---------------------------------------------------------------------------- handles

  /** A new handle is of the generation its piece is at; other handles stay, and so does the store. */
  lemma AttachDoes(length: Key -> nat, y: System, id: nat, key: Key, life: nat)
    requires Inv(length, y) && id !in y.handles
    ensures var z := Step(length, y, Attach(id, key, life));
      && z == y.(handles := y.handles[id := z.handles[id]])
      && z.handles[id] == Handle(key, life, if key in y.store.staging then y.store.staging[key].generation else Epoch(y.store, key), None)
  {
  }

  /** A hash starts with nothing; each window that is served in full is handed over next, and any other
      answer ends the hash. */
  lemma HashDoes(length: Key -> nat, y: System, id: nat, n: nat)
    requires Inv(length, y) && id in y.handles
    ensures y.handles[id].hashing.None? ==> Step(length, y, StartHash(id)).handles[id].hashing == Some(Progress([], 0))
    ensures y.handles[id].hashing.Some? && |y.handles[id].hashing.value.sofar| + n <= length(y.handles[id].key) ==>
      var h := y.handles[id];
      var reply := Fetch(y.store, h.key, h.life, |h.hashing.value.sofar|, n, Resident(y.cache, h.key)).1;
      var g := Step(length, y, HashNext(id, n)).handles[id];
      && g.key == h.key && g.life == h.life && g.generation == h.generation
      && (g.hashing.Some? <==> reply.Served? && !reply.short)
      && (g.hashing.Some? ==> g.hashing.value.sofar == h.hashing.value.sofar + reply.bytes)
  {
  }

  /** A chunk through a handle makes it one of the generation it went to, and a first chunk throws the
      resident value away. */
  lemma WriteDoes(length: Key -> nat, y: System, id: nat, off: int, src: Bytes)
    requires Inv(length, y) && id in y.handles && Open(y.store, y.handles[id].key.torrent, y.handles[id].life)
    ensures var h := y.handles[id]; var z := Step(length, y, WriteAt(id, off, src));
      && h.key in z.store.staging && z.store.staging[h.key].generation == Target(y.store, h.key)
      && id in z.handles && z.handles[id].generation == Target(y.store, h.key)
      && (h.key in y.store.staging ==> z.cache == y.cache)
      && (h.key !in y.store.staging ==> h.key !in z.cache.items && z.store.epochs == y.store.epochs[h.key := Target(y.store, h.key)])
  {
    WriteStepIsWrite(length, y, id, off, src);
  }

  /** A read of a resident piece without a live buffer, and no other read, counts as a use of it. */
  lemma ReadTouches(length: Key -> nat, y: System, id: nat, off: int, n: nat)
    requires Inv(length, y) && id in y.handles
    ensures var h := y.handles[id]; var z := Step(length, y, ReadAt(id, off, n));
      if Open(y.store, h.key.torrent, h.life) && h.key !in y.store.staging && h.key in y.cache.items
      then z.cache == y.cache.(lru := z.cache.lru) && z.cache.lru != [] && z.cache.lru[0] == h.key
      else z.cache == y.cache
  {
  }
}
