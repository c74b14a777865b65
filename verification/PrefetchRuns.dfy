/** What each move of a coordinator does to its tables, and what it reserves in the cache. */
module PrefetchRuns {
  import opened Types
  import opened Sums
  import C = CacheModel
  import K = CacheRuns
  import opened PrefetchModel
  import opened PrefetchSystem

  /** All but the named parts of the ledger is as before. */
  ghost predicate SameTickets(v: Ledger, w: Ledger) {
    v.foreground == w.foreground && v.pieces == w.pieces
  }

  // ---------------------------------------------------------------------------- tickets

  lemma {:induction false} RetainSeqGrants(w: World, keys: seq<nat>, pieceLength: int, torrentSize: int)
    requires Core(w, {}, map[]) && C.NoDuplicates(keys)
    ensures var (v, granted) := RetainSeq(w, keys, pieceLength, torrentSize);
      && (forall k :: k in keys ==> (k in granted <==> k in v.ledger.refs))
      && (forall k :: k !in keys ==> (k in v.ledger.refs <==> k in w.ledger.refs))
  {
    if keys != [] {
      var front, i := keys[..|keys| - 1], keys[|keys| - 1];
      assert keys == front + [i];
      RetainSeqGrants(w, front, pieceLength, torrentSize);
      RetainSeqCore(w, front, pieceLength, torrentSize);
      var (v, granted) := RetainSeq(w, front, pieceLength, torrentSize);
      RetainRefs(v, granted, i, Size(pieceLength, torrentSize, i));
      assert i !in front;
    }
  }

  lemma RetainRefs(w: World, loose: set<nat>, i: nat, size: int)
    requires Core(w, loose, map[])
    ensures var (v, ok) := Retain(w, i, size);
      (i in v.ledger.refs <==> ok) && forall k :: k != i ==> (k in v.ledger.refs <==> k in w.ledger.refs)
  {
  }

  /** A read that joins holds a reference on exactly those of its pieces that are referenced then, so on all
      that were or that the cache let it pin; it waits for none yet, and none of its pieces is leased any
      more. Nobody else's ticket, wait, window pin or other lease changes. */
  lemma JoinDoes(w: World, id: nat, t: Ticket, keys: seq<nat>, pieceLength: int, torrentSize: int)
    requires Steady(w) && C.NoDuplicates(keys) && id !in w.ledger.foreground
    ensures var v := Enter(w, id, t, keys, pieceLength, torrentSize).ledger;
      && v.hasAnchor && id in v.foreground && v.foreground == w.ledger.foreground[id := v.foreground[id]]
      && v.foreground[id] == t.(pinned := v.foreground[id].pinned, active := map[])
      && (forall k :: k in v.foreground[id].pinned <==> k in keys && k in v.refs)
      && (forall k :: k in w.ledger.refs ==> k in v.refs)
      && (forall k :: k in v.active <==> k in w.ledger.active && k !in keys)
      && v.pieces == w.ledger.pieces && v.window == w.ledger.window
  {
    var a := w.(ledger := w.ledger.(hasAnchor := true));
    RetainSeqCore(a, keys, pieceLength, torrentSize);
    RetainSeqGrants(a, keys, pieceLength, torrentSize);
    RetainSeqKeeps(a, keys, pieceLength, torrentSize);
    var (v, granted) := RetainSeq(a, keys, pieceLength, torrentSize);
    var t' := t.(pinned := granted, active := map[]);
    var u := v.(ledger := v.ledger.(foreground := v.ledger.foreground[id := t']));
    AttachCounted(v.ledger.refs, v.ledger.window, v.ledger.foreground, id, t');
    AttachWaiting(v.ledger.pieces, v.ledger.foreground, id, t');
    CancelAllCore(u, keys, {}, map[]);
  }

  lemma {:induction false} RetainSeqKeeps(w: World, keys: seq<nat>, pieceLength: int, torrentSize: int)
    ensures forall k :: k in w.ledger.refs ==> k in RetainSeq(w, keys, pieceLength, torrentSize).0.ledger.refs
  {
    if keys != [] {
      RetainSeqKeeps(w, keys[..|keys| - 1], pieceLength, torrentSize);
    }
  }

  /** A read that leaves takes its ticket and its waits along; whatever is still referenced stays so, and
      neither the window nor a lease changes. */
  lemma LeaveDoes(w: World, id: nat, order: seq<nat>, i: nat)
    requires Steady(w) && id in w.ledger.foreground && C.NoDuplicates(order)
    requires forall i :: i in order <==> i in w.ledger.foreground[id].pinned
    ensures var v := Leave(w, id, order).ledger;
      && v.foreground == w.ledger.foreground - {id} && v.window == w.ledger.window && v.active == w.ledger.active
      && v.hasAnchor == w.ledger.hasAnchor && v.closed == w.ledger.closed
      && Get(v.pieces, i) == Get(w.ledger.pieces, i) - Get(w.ledger.foreground[id].active, i)
      && Get(v.refs, i) == Get(w.ledger.refs, i) - One(i in w.ledger.foreground[id].pinned)
  {
    var v := Leave(w, id, order).ledger;
    LeaveSteady(w, id, order);
    LeaveFields(w, id, order);
    WaitsLeft(w.ledger.pieces, w.ledger.foreground, id, v.pieces, i);
    RefsLeft(w.ledger.refs, w.ledger.window, w.ledger.foreground, id, v.refs, i);
  }

  lemma WaitsLeft(pieces: map<nat, int>, f: map<nat, Ticket>, id: nat, left: map<nat, int>, i: nat)
    requires id in f && Waiting(pieces, f, map[]) && Waiting(left, f - {id}, map[])
    ensures Get(left, i) == Get(pieces, i) - Get(f[id].active, i)
  {
    LoadsInsert(f - {id}, id, f[id], i);
    assert (f - {id})[id := f[id]] == f;
    assert Get(pieces, i) == Sum(Loads(f, i)) + Get(map[], i);
    assert Get(left, i) == Sum(Loads(f - {id}, i)) + Get(map[], i);
  }

  lemma RefsLeft(refs: map<nat, int>, window: set<nat>, f: map<nat, Ticket>, id: nat, left: map<nat, int>, i: nat)
    requires id in f && Counted(refs, window, f, {}) && Counted(left, window, f - {id}, {})
    ensures Get(left, i) == Get(refs, i) - One(i in f[id].pinned)
  {
    HoldingInsert(f - {id}, id, f[id], i);
    assert (f - {id})[id := f[id]] == f;
    assert Get(refs, i) == One(i in window) + |Holding(f, i)| + One(i in {});
    assert Get(left, i) == One(i in window) + |Holding(f - {id}, i)| + One(i in {});
  }

  lemma LeaveFields(w: World, id: nat, order: seq<nat>)
    requires id in w.ledger.foreground
    ensures var v := Leave(w, id, order).ledger;
      && v.foreground == w.ledger.foreground - {id} && v.window == w.ledger.window && v.active == w.ledger.active
      && v.hasAnchor == w.ledger.hasAnchor && v.closed == w.ledger.closed
  {
    var t := w.ledger.foreground[id];
    ReleaseAllFields(w.(ledger := w.ledger.(foreground := w.ledger.foreground - {id},
                                            pieces := Unwait(w.ledger.pieces, t.active))), order);
  }

  lemma {:induction false} ReleaseAllFields(w: World, order: seq<nat>)
    ensures ReleaseAll(w, order).ledger == w.ledger.(refs := ReleaseAll(w, order).ledger.refs)
  {
    if order != [] {
      ReleaseAllFields(w, order[..|order| - 1]);
    }
  }

  lemma OnceMore(m: map<nat, int>, i: nat, j: nat)
    ensures Get(Up(m, i), j) == Get(m, j) + One(j == i)
  {
  }

  lemma OnceLess(m: map<nat, int>, i: nat, j: nat)
    requires i in m && m[i] > 0
    ensures Get(Down(m, i), j) == Get(m, j) - One(j == i)
  {
  }

  /** Another ticket is as it was, and nothing of this one changed but its waits. */
  ghost predicate OnlyWaits(v: Ledger, w: Ledger, id: nat)
    requires id in w.foreground
  {
    && id in v.foreground && v.foreground == w.foreground[id := w.foreground[id].(active := v.foreground[id].active)]
    && v.refs == w.refs && v.window == w.window && v.hasAnchor == w.hasAnchor && v.closed == w.closed
  }

  /** A read that starts to wait for a piece waits for it once more, as does the coordinator, and the piece's
      lease is gone. */
  lemma StartDoes(w: World, id: nat, i: nat, j: nat)
    requires Steady(w) && id in w.ledger.foreground
    ensures var v := StartWait(w, id, i).ledger;
      && OnlyWaits(v, w.ledger, id)
      && Get(v.foreground[id].active, j) == Get(w.ledger.foreground[id].active, j) + One(j == i)
      && Get(v.pieces, j) == Get(w.ledger.pieces, j) + One(j == i)
      && (j in v.active <==> j in w.ledger.active && j != i)
  {
    OnceMore(w.ledger.foreground[id].active, i, j);
    OnceMore(w.ledger.pieces, i, j);
  }

  lemma AwaitedPiece(w: World, id: nat, i: nat)
    requires Steady(w) && id in w.ledger.foreground && i in w.ledger.foreground[id].active
    ensures i in w.ledger.pieces && w.ledger.pieces[i] > 0 && w.ledger.foreground[id].active[i] > 0
  {
    SumRemove(Loads(w.ledger.foreground, i), id);
    SumNonNegative(Loads(w.ledger.foreground, i) - {id});
    assert Get(w.ledger.pieces, i) == Sum(Loads(w.ledger.foreground, i)) + Get(map[], i);
  }

  /** A read that stops waiting undoes one wait, if it has one. */
  lemma EndDoes(w: World, id: nat, i: nat, j: nat)
    requires Steady(w) && id in w.ledger.foreground
    ensures var v := EndWait(w, id, i).ledger; var waits := i in w.ledger.foreground[id].active;
      && OnlyWaits(v, w.ledger, id) && v.active == w.ledger.active
      && Get(v.foreground[id].active, j) == Get(w.ledger.foreground[id].active, j) - One(waits && j == i)
      && Get(v.pieces, j) == Get(w.ledger.pieces, j) - One(waits && j == i)
  {
    if i in w.ledger.foreground[id].active {
      AwaitedPiece(w, id, i);
      OnceLess(w.ledger.foreground[id].active, i, j);
      OnceLess(w.ledger.pieces, i, j);
    }
  }

  /** A ticket that is retagged means what it is told, holds what it held, and no other one changes. */
  lemma RetagDoes(w: World, id: nat, t: Ticket)
    requires Enabled(w, Retags(id, t))
    ensures var v := Act(w, Retags(id, t)).ledger;
      && v == w.ledger.(foreground := w.ledger.foreground[id := t])
      && v.foreground[id].pinned == w.ledger.foreground[id].pinned && v.foreground[id].active == w.ledger.foreground[id].active
  {
  }

  // ----------------------------------------------------------------------------- window

  /** Giving up the window, with or without the anchor, leaves no window pin and no lease, and every ticket
      with its references and waits. */
  lemma EmptyDoes(w: World, unwinds: seq<nat>, cancels: seq<nat>)
    requires Steady(w) && C.NoDuplicates(unwinds) && (forall i :: i in unwinds <==> i in w.ledger.window)
    requires forall i :: i in w.ledger.active ==> i in cancels
    ensures var v, u := Abandon(w, unwinds, cancels).ledger, DropAnchor(w, cancels, unwinds).ledger;
      && v.hasAnchor == w.ledger.hasAnchor && !u.hasAnchor
      && (forall i :: i !in v.window && i !in v.active && i !in u.window && i !in u.active)
      && SameTickets(v, w.ledger) && SameTickets(u, w.ledger)
  {
    UnwindowAllCore(w, unwinds);
    CancelAllCore(UnwindowAll(w, unwinds), cancels, {}, map[]);
    CancelAllCore(w, cancels, {}, map[]);
    UnwindowAllCore(CancelAll(w, cancels), unwinds);
  }

  /** Pruning keeps exactly the window pins that are wanted and the leases that are not cancelled. */
  lemma PruneDoes(w: World, unwinds: seq<nat>, cancels: seq<nat>, wanted: seq<nat>)
    requires Steady(w) && C.NoDuplicates(unwinds) && (forall i :: i in unwinds <==> i in w.ledger.window && i !in wanted)
    ensures var v := CancelAll(UnwindowAll(w, unwinds), cancels).ledger;
      && (forall i :: i in v.window <==> i in w.ledger.window && i in wanted)
      && (forall i :: i in v.active <==> i in w.ledger.active && i !in cancels)
      && SameTickets(v, w.ledger) && v.hasAnchor == w.ledger.hasAnchor
  {
    UnwindowAllCore(w, unwinds);
    CancelAllCore(UnwindowAll(w, unwinds), cancels, {}, map[]);
  }

  /** Pinning adds exactly the wanted pieces before the first one that the cache refuses. */
  lemma {:induction false} PinDoes(w: World, wanted: seq<nat>, pieceLength: int, torrentSize: int) returns (m: nat)
    requires Steady(w) && w.ledger.hasAnchor
    ensures var (v, blocked) := WindowSeq(w, wanted, pieceLength, torrentSize);
      && m <= |wanted| && (blocked <==> m < |wanted|)
      && (forall i :: i in v.ledger.window <==> i in w.ledger.window || i in wanted[..m])
      && SameTickets(v.ledger, w.ledger) && v.ledger.active == w.ledger.active
  {
    if wanted == [] {
      m := 0;
    } else {
      var front, i := wanted[..|wanted| - 1], wanted[|wanted| - 1];
      m := PinDoes(w, front, pieceLength, torrentSize);
      assert wanted == front + [i];
      WindowSeqSteady(w, front, pieceLength, torrentSize);
      var (v, blocked) := WindowSeq(w, front, pieceLength, torrentSize);
      assert m <= |front| ==> wanted[..m] == front[..m];
      if !blocked {
        assert front[..m] == front;
        if i in v.ledger.window {
          m := m + 1;
        } else {
          WindowCore(v, i, Size(pieceLength, torrentSize, i));
          m := if Window(v, i, Size(pieceLength, torrentSize, i)).1 then m + 1 else m;
        }
        assert wanted[..|wanted|] == wanted;
      }
    }
  }

  // ----------------------------------------------------------------------- reservations

  /** How many bytes of a torrent lie in a piece. */
  lemma SizeMeans(pieceLength: int, torrentSize: int, i: nat)
    ensures pieceLength <= 0 ==> Size(pieceLength, torrentSize, i) == 0
    ensures 0 < pieceLength ==> Size(pieceLength, torrentSize, i) == Least((i + 1) * pieceLength, torrentSize) - i * pieceLength
    ensures 0 < pieceLength && i * pieceLength < torrentSize ==> 0 < Size(pieceLength, torrentSize, i) <= pieceLength
  {
    assert (i + 1) * pieceLength == i * pieceLength + pieceLength;
  }

  function Least(a: int, b: int): int {
    if a < b then a else b
  }

  /** The first reference on a piece is granted exactly when its bytes fit the pin budget beside what the
      other pins reserved, and then holds at least that many; a later one is always granted and reserves
      nothing more. Either way it is one reference. */
  lemma RetainDoes(w: World, i: nat, size: nat)
    requires Core(w, {}, map[])
    ensures var (v, ok) := Retain(w, i, size); var key := KeyOf(w.ledger, i);
      && (ok <==> i in w.ledger.refs || K.ReservedElsewhere(w.cache, key) + C.Max(size, C.SizeOf(w.cache, key)) <= C.PinCap(w.cache.capacity))
      && (ok ==> Get(v.ledger.refs, i) == Get(w.ledger.refs, i) + 1)
      && (ok && i !in w.ledger.refs ==> key in v.cache.pinned && v.cache.sizes[key] == C.Max(size, C.SizeOf(w.cache, key)))
      && (i in w.ledger.refs ==> v.cache == w.cache) && (!ok ==> v == w)
  {
    var key := KeyOf(w.ledger, i);
    K.PinDecides(w.cache, key, size);
    assert Key(w.ledger.torrent, i) in w.cache.pinned <==> i in w.ledger.refs;
  }
}
