/** Runs of any number of coordinators that share one cache and one budget. */
module PrefetchSystem {
  import opened Types
  import opened Sums
  import C = CacheModel
  import opened PrefetchModel

  /** The atomic moves a coordinator's operations are made of. Sequences give the order in which a
      pass happened to visit a set. */
  datatype Action =
    | Joins(id: nat, ticket: Ticket, keys: seq<nat>, pieceLength: int, torrentSize: int)
    | Leaves(id: nat, order: seq<nat>)
    | Retags(id: nat, ticket: Ticket)
    | Abandons(unwinds: seq<nat>, cancels: seq<nat>)
    | Drops(cancels: seq<nat>, unwinds: seq<nat>)
    | Starts(id: nat, piece: nat)
    | Ends(id: nat, piece: nat)
    | Prunes(unwinds: seq<nat>, cancels: seq<nat>, wanted: seq<nat>)
    | Pins(wanted: seq<nat>, pieceLength: int, torrentSize: int)
    | Leases(order: seq<nat>)
    | Retires(order: seq<nat>)
    | Shuts(cancels: seq<nat>, unpins: seq<nat>)

  ghost predicate Enabled(w: World, a: Action) {
    var l := w.ledger;
    match a
    case Joins(id, t, keys, _, _) => !l.closed && id !in l.foreground && C.NoDuplicates(keys)
    case Leaves(id, order) =>
      id in l.foreground && C.NoDuplicates(order) && forall i :: i in order <==> i in l.foreground[id].pinned
    case Retags(id, t) =>
      id in l.foreground && t.pinned == l.foreground[id].pinned && t.active == l.foreground[id].active
    case Abandons(unwinds, cancels) =>
      && C.NoDuplicates(unwinds) && (forall i :: i in unwinds <==> i in l.window)
      && (forall i :: i in l.active ==> i in cancels)
    case Drops(cancels, unwinds) =>
      && C.NoDuplicates(unwinds) && (forall i :: i in unwinds <==> i in l.window)
      && (forall i :: i in l.active ==> i in cancels)
    case Starts(id, _) => id in l.foreground
    case Ends(id, _) => id in l.foreground
    case Prunes(unwinds, cancels, wanted) =>
      && C.NoDuplicates(unwinds) && (forall i :: i in unwinds <==> i in l.window && i !in wanted)
      && (forall i :: i in l.active && (i !in wanted || i in l.pieces) ==> i in cancels)
    case Pins(_, _, _) => l.hasAnchor
    case Leases(order) =>
      && l.hasAnchor && C.NoDuplicates(order) && w.budget.used + |order| <= w.budget.limit
      && (forall i :: i in order ==> i in l.window && i !in l.pieces && i !in l.active)
    case Retires(_) => true
    case Shuts(cancels, unpins) =>
      (forall i :: i in l.active ==> i in cancels) && (forall i :: i in unpins <==> i in l.refs)
  }

  ghost function Act(w: World, a: Action): World {
    if !Enabled(w, a) then w
    else match a
      case Joins(id, t, keys, pieceLength, torrentSize) => Enter(w, id, t, keys, pieceLength, torrentSize)
      case Leaves(id, order) => Leave(w, id, order)
      case Retags(id, t) => Retag(w, id, t)
      case Abandons(unwinds, cancels) => Abandon(w, unwinds, cancels)
      case Drops(cancels, unwinds) => DropAnchor(w, cancels, unwinds)
      case Starts(id, i) => StartWait(w, id, i)
      case Ends(id, i) => EndWait(w, id, i)
      case Prunes(unwinds, cancels, _) => CancelAll(UnwindowAll(w, unwinds), cancels)
      case Pins(wanted, pieceLength, torrentSize) => WindowSeq(w, wanted, pieceLength, torrentSize).0
      case Leases(order) => LeaseAll(w, order)
      case Retires(order) => CancelAll(w, order)
      case Shuts(cancels, unpins) => Shut(w, cancels, unpins)
  }

  ghost function Perform(w: World, acts: seq<Action>): World {
    if acts == [] then w else Act(Perform(w, acts[..|acts| - 1]), acts[|acts| - 1])
  }

  lemma PerformSnoc(w: World, acts: seq<Action>, a: Action)
    ensures Perform(w, acts + [a]) == Act(Perform(w, acts), a)
  {
    assert (acts + [a])[..|acts|] == acts;
  }

  lemma {:induction false} PerformConcat(w: World, a: seq<Action>, b: seq<Action>)
    ensures Perform(w, a + b) == Perform(Perform(w, a), b)
  {
    if b == [] {
      assert a + b == a;
    } else {
      var front := b[..|b| - 1];
      assert (a + b)[..|a + b| - 1] == a + front;
      PerformConcat(w, a, front);
    }
  }

  ghost predicate Does(v: World, acts: seq<Action>, w: World) {
    w == Perform(v, acts)
  }

  lemma DoesOne(v: World, a: Action)
    ensures Does(v, [a], Act(v, a))
  {
    PerformSnoc(v, [], a);
    assert [] + [a] == [a];
  }

  lemma DoesThen(u: World, a: seq<Action>, v: World, b: seq<Action>, w: World)
    requires Does(u, a, v) && Does(v, b, w)
    ensures Does(u, a + b, w)
  {
    PerformConcat(u, a, b);
  }

  lemma ActTicketSteady(w: World, a: Action)
    requires Steady(w) && (a.Joins? || a.Leaves? || a.Retags? || a.Starts? || a.Ends?)
    ensures Steady(Act(w, a)) && Moved(w, Act(w, a))
    ensures if a.Joins? then Act(w, a).ledger.closed == w.ledger.closed else Quieter(w.ledger, Act(w, a).ledger)
  {
    if Enabled(w, a) {
      match a
      case Joins(id, t, keys, pieceLength, torrentSize) => EnterSteady(w, id, t, keys, pieceLength, torrentSize);
      case Leaves(id, order) => LeaveSteady(w, id, order);
      case Retags(id, t) => RetagSteady(w, id, t);
      case Starts(id, i) => StartWaitSteady(w, id, i);
      case Ends(id, i) => EndWaitSteady(w, id, i);
    }
  }

  lemma ActWindowSteady(w: World, a: Action)
    requires Steady(w) && !(a.Joins? || a.Leaves? || a.Retags? || a.Starts? || a.Ends?)
    ensures Steady(Act(w, a)) && Moved(w, Act(w, a))
    ensures !(a.Shuts? && Enabled(w, a)) ==> Quieter(w.ledger, Act(w, a).ledger)
    ensures a.Shuts? && Enabled(w, a) ==> Inv(Act(w, a))
  {
    if Enabled(w, a) {
      match a
      case Abandons(unwinds, cancels) => AbandonSteady(w, unwinds, cancels);
      case Drops(cancels, unwinds) => DropAnchorSteady(w, cancels, unwinds);
      case Prunes(unwinds, cancels, wanted) => PruneSteady(w, unwinds, cancels, wanted);
      case Pins(wanted, pieceLength, torrentSize) => WindowSeqSteady(w, wanted, pieceLength, torrentSize);
      case Leases(order) => LeaseAllSteady(w, order);
      case Retires(order) => CancelAllSteady(w, order);
      case Shuts(cancels, unpins) => ShutInv(w, cancels, unpins);
    }
  }

  lemma ActInv(w: World, a: Action)
    requires Inv(w)
    ensures Inv(Act(w, a)) && Moved(w, Act(w, a))
  {
    if a.Joins? || a.Leaves? || a.Retags? || a.Starts? || a.Ends? {
      ActTicketSteady(w, a);
    } else {
      ActWindowSteady(w, a);
    }
  }

  /** Every operation of one coordinator, whatever moves it is made of. */
  lemma {:induction false} PerformInv(w: World, acts: seq<Action>)
    requires Inv(w)
    ensures Inv(Perform(w, acts)) && Moved(w, Perform(w, acts))
  {
    if acts != [] {
      var v := Perform(w, acts[..|acts| - 1]);
      PerformInv(w, acts[..|acts| - 1]);
      ActInv(v, acts[|acts| - 1]);
      MovedTrans(w, v, Perform(w, acts));
    }
  }

  // ------------------------------------------------------------- closed coordinators

  /** Closed, and with nothing left in any table. */
  ghost predicate Idle(l: Ledger) {
    l == Ledger(l.torrent, true, false, map[], map[], map[], {}, {})
  }

  /** A coordinator in order, whatever its torrent went through since it was closed. */
  ghost predicate Sound(w: World) {
    C.Inv(w.cache) && 0 <= w.budget.used <= w.budget.limit && if w.ledger.closed then Idle(w.ledger) else Inv(w)
  }

  lemma ClosedIsIdle(w: World)
    requires Inv(w) && w.ledger.closed
    ensures Idle(w.ledger)
  {
    ClosedHoldsNothing(w);
    forall i: nat ensures i !in w.ledger.refs && i !in w.ledger.pieces {
      assert Key(w.ledger.torrent, i) in w.cache.pinned <==> i in w.ledger.refs;
      assert Loads(map[], i) == map[];
      assert Get(w.ledger.pieces, i) == Sum(Loads(w.ledger.foreground, i)) + 0;
    }
    NoKeys(w.ledger.refs);
    NoKeys(w.ledger.pieces);
    assert w.ledger.window == {};
  }

  lemma NoKeys(m: map<nat, int>)
    requires forall i: nat :: i !in m
    ensures m == map[]
  {
  }

  lemma {:induction false} CancelNothing(w: World, order: seq<nat>)
    requires w.ledger.active == {}
    ensures CancelAll(w, order) == w
  {
    if order != [] {
      CancelNothing(w, order[..|order| - 1]);
    }
  }

  lemma EmptyOrMember(order: seq<nat>)
    ensures order == [] || exists i :: i in order
  {
    if order != [] {
      assert order[0] in order;
    }
  }

  /** No move of a closed coordinator changes anything, whoever holds its torrent's pins by now. */
  lemma IdleActs(w: World, a: Action)
    requires Idle(w.ledger)
    ensures Act(w, a) == w
  {
    if Enabled(w, a) {
      match a
      case Abandons(unwinds, cancels) => EmptyOrMember(unwinds); CancelNothing(w, cancels);
      case Drops(cancels, unwinds) => EmptyOrMember(unwinds); CancelNothing(w, cancels);
      case Prunes(unwinds, cancels, _) => EmptyOrMember(unwinds); CancelNothing(w, cancels);
      case Retires(order) => CancelNothing(w, order);
      case Shuts(cancels, unpins) => EmptyOrMember(unpins); CancelNothing(w, cancels);
      case _ =>
    }
  }

  lemma {:induction false} IdlePerforms(w: World, acts: seq<Action>)
    requires Idle(w.ledger)
    ensures Perform(w, acts) == w
  {
    if acts != [] {
      IdlePerforms(w, acts[..|acts| - 1]);
      IdleActs(w, acts[|acts| - 1]);
    }
  }

  lemma PerformSound(w: World, acts: seq<Action>)
    requires Sound(w)
    ensures Sound(Perform(w, acts)) && Moved(w, Perform(w, acts))
    ensures w.ledger.closed ==> Perform(w, acts) == w
  {
    if w.ledger.closed {
      IdlePerforms(w, acts);
    } else {
      PerformInv(w, acts);
      if Perform(w, acts).ledger.closed {
        ClosedIsIdle(Perform(w, acts));
      }
    }
  }

  // --------------------------------------------------------------------- session

  /** Every coordinator the session ever made; a torrent that is closed and opened again gets a new one. */
  datatype Session = Session(cache: C.State, budget: Budget, coordinators: map<nat, Ledger>)

  ghost function View(s: Session, j: nat): World
    requires j in s.coordinators
  {
    World(s.coordinators[j], s.cache, s.budget)
  }

  ghost function LeaseCounts(s: Session): map<nat, int> {
    map j | j in s.coordinators :: |s.coordinators[j].active|
  }

  /** The coordinator at work for a torrent. */
  ghost predicate Serves(s: Session, j: nat, torrent: string) {
    j in s.coordinators && !s.coordinators[j].closed && s.coordinators[j].torrent == torrent
  }

  /** Open coordinators serve different torrents. */
  ghost predicate Distinct(s: Session) {
    forall i, j :: i in s.coordinators && Serves(s, j, s.coordinators[i].torrent) && !s.coordinators[i].closed ==> i == j
  }

  /** The budget holds exactly the leases that are out. */
  ghost predicate Balanced(s: Session) {
    0 <= s.budget.used <= s.budget.limit && s.budget.used == Sum(LeaseCounts(s))
  }

  /** Each coordinator is consistent with what it shares. */
  ghost predicate Consistent(s: Session) {
    C.Inv(s.cache) && forall j :: j in s.coordinators ==> Sound(View(s, j))
  }

  /** Nobody pins a piece of a torrent without a coordinator at work for it. */
  ghost predicate Attended(s: Session) {
    forall k: Key :: k in s.cache.pinned && 0 <= k.piece ==> exists j :: Serves(s, j, k.torrent)
  }

  ghost predicate SessionInv(s: Session) {
    Distinct(s) && Balanced(s) && Consistent(s) && Attended(s)
  }

  datatype Event =
    | Operate(j: nat, acts: seq<Action>)
    | Start(j: nat, torrent: string)
    | Forget(torrent: string)   // a closed torrent's cached pieces and pins are dropped
    | Elsewhere(cache: C.State) // any other cache traffic; only coordinators pin

  /** No coordinator is at work for the torrent. */
  ghost predicate Free(s: Session, torrent: string) {
    forall j :: !Serves(s, j, torrent)
  }

  ghost predicate KeepsPins(s: Session, cache: C.State) {
    C.Inv(cache) && forall k: Key :: 0 <= k.piece ==> (k in cache.pinned <==> k in s.cache.pinned)
  }

  ghost function Next(s: Session, e: Event): Session {
    match e
    case Operate(j, acts) =>
      if j !in s.coordinators then s
      else
        var w := Perform(View(s, j), acts);
        Session(w.cache, w.budget, s.coordinators[j := w.ledger])
    case Start(j, torrent) =>
      if j in s.coordinators || !Free(s, torrent) then s
      else s.(coordinators := s.coordinators[j := Ledger(torrent, false, false, map[], map[], map[], {}, {})])
    case Forget(torrent) => if Free(s, torrent) then s.(cache := C.Invalidate(s.cache, torrent)) else s
    case Elsewhere(cache) => if KeepsPins(s, cache) then s.(cache := cache) else s
  }

  // ---- a coordinator operates

  /** The other coordinators are untouched by one coordinator's operation. */
  lemma OthersKeep(s: Session, j: nat, w: World, i: nat)
    requires Distinct(s) && Consistent(s) && j in s.coordinators && !s.coordinators[j].closed && i in s.coordinators && i != j
    requires Sound(w) && Moved(View(s, j), w)
    requires |s.coordinators[i].active| <= w.budget.used
    ensures Sound(World(s.coordinators[i], w.cache, w.budget))
  {
    var l := s.coordinators[i];
    assert Sound(View(s, i));
    if !l.closed {
      assert Serves(s, i, l.torrent) && !Serves(s, j, l.torrent);
      forall p: nat ensures Key(l.torrent, p) in w.cache.pinned <==> p in l.refs {
        assert Key(l.torrent, p) in View(s, i).cache.pinned <==> p in l.refs;
      }
    }
  }

  lemma CountLease(counts: map<nat, int>, i: nat)
    requires i in counts && forall j :: j in counts ==> 0 <= counts[j]
    ensures counts[i] <= Sum(counts)
  {
    SumRemove(counts, i);
    SumNonNegative(counts - {i});
  }

  lemma OperateBalance(s: Session, j: nat, w: World)
    requires Balanced(s) && j in s.coordinators && Moved(View(s, j), w) && Funded(w)
    ensures var t := Session(w.cache, w.budget, s.coordinators[j := w.ledger]);
      Balanced(t) && forall i :: i in t.coordinators ==> |t.coordinators[i].active| <= t.budget.used
  {
    var t := Session(w.cache, w.budget, s.coordinators[j := w.ledger]);
    assert LeaseCounts(t) == LeaseCounts(s)[j := |w.ledger.active|];
    SumUpdate(LeaseCounts(s), j, |w.ledger.active|);
    SumNonNegative(LeaseCounts(t));
    forall i | i in t.coordinators ensures |t.coordinators[i].active| <= t.budget.used {
      CountLease(LeaseCounts(t), i);
    }
  }

  lemma OpenWhilePinned(w: World, i: nat)
    requires Inv(w) && Key(w.ledger.torrent, i) in w.cache.pinned
    ensures !w.ledger.closed
  {
    if w.ledger.closed {
      ClosedHoldsNothing(w);
    }
  }

  /** Pins stay with coordinators at work: the operating one keeps its own while it is open. */
  lemma OperateAttended(s: Session, j: nat, w: World)
    requires Attended(s) && j in s.coordinators && !s.coordinators[j].closed && Inv(w) && Moved(View(s, j), w)
    ensures Attended(Session(w.cache, w.budget, s.coordinators[j := w.ledger]))
  {
    var t := Session(w.cache, w.budget, s.coordinators[j := w.ledger]);
    forall k: Key | k in t.cache.pinned && 0 <= k.piece ensures exists i :: Serves(t, i, k.torrent) {
      if k.torrent != w.ledger.torrent {
        var i :| Serves(s, i, k.torrent);
        assert Serves(t, i, k.torrent);
      } else {
        OpenWhilePinned(w, k.piece);
        assert Serves(t, j, k.torrent);
      }
    }
  }

  lemma OperateOpen(s: Session, j: nat, acts: seq<Action>)
    requires SessionInv(s) && j in s.coordinators && !s.coordinators[j].closed
    ensures SessionInv(Next(s, Operate(j, acts)))
  {
    var w := Perform(View(s, j), acts);
    var t := Next(s, Operate(j, acts));
    PerformSound(View(s, j), acts);
    PerformInv(View(s, j), acts);
    OperateBalance(s, j, w);
    OperateAttended(s, j, w);
    OperateDistinct(s, j, w);
    forall i | i in t.coordinators ensures Sound(View(t, i)) {
      if i != j {
        OthersKeep(s, j, w, i);
      }
    }
  }

  lemma OperateDistinct(s: Session, j: nat, w: World)
    requires Distinct(s) && j in s.coordinators && Moved(View(s, j), w)
    ensures Distinct(Session(w.cache, w.budget, s.coordinators[j := w.ledger]))
  {
    var t := Session(w.cache, w.budget, s.coordinators[j := w.ledger]);
    forall i, k | i in t.coordinators && Serves(t, k, t.coordinators[i].torrent) && !t.coordinators[i].closed ensures i == k {
      assert Serves(s, k, s.coordinators[i].torrent);
    }
  }

  /** Whatever a closed coordinator is still asked to do changes nothing in the session. */
  lemma OperateClosed(s: Session, j: nat, acts: seq<Action>)
    requires Consistent(s) && j in s.coordinators && s.coordinators[j].closed
    ensures Next(s, Operate(j, acts)) == s
  {
    PerformSound(View(s, j), acts);
    assert s.coordinators[j := s.coordinators[j]] == s.coordinators;
  }

  // ---- a coordinator starts

  lemma StartBalance(s: Session, j: nat, torrent: string)
    requires Balanced(s) && j !in s.coordinators && Free(s, torrent)
    ensures Balanced(Next(s, Start(j, torrent)))
  {
    assert LeaseCounts(Next(s, Start(j, torrent))) == LeaseCounts(s)[j := 0];
    SumUpdate(LeaseCounts(s), j, 0);
  }

  lemma FreeUnpinned(s: Session, torrent: string)
    requires Attended(s) && Free(s, torrent)
    ensures forall i: nat :: Key(torrent, i) !in s.cache.pinned
  {
    assert forall i: nat :: Key(torrent, i) in s.cache.pinned ==> exists k :: Serves(s, k, Key(torrent, i).torrent);
  }

  lemma StartConsistent(s: Session, j: nat, torrent: string)
    requires Consistent(s) && Balanced(s) && Attended(s) && j !in s.coordinators && Free(s, torrent)
    ensures Consistent(Next(s, Start(j, torrent)))
  {
    var t := Next(s, Start(j, torrent));
    FreeUnpinned(s, torrent);
    EmptyInv(torrent, false, s.cache, s.budget);
    forall i | i in t.coordinators ensures Sound(View(t, i)) {
      if i != j {
        assert View(t, i) == View(s, i);
      }
    }
  }

  lemma StartInv(s: Session, j: nat, torrent: string)
    requires SessionInv(s) && j !in s.coordinators && Free(s, torrent)
    ensures SessionInv(Next(s, Start(j, torrent)))
  {
    var t := Next(s, Start(j, torrent));
    StartBalance(s, j, torrent);
    StartConsistent(s, j, torrent);
    forall i: nat, name: string | i in s.coordinators ensures Serves(t, i, name) <==> Serves(s, i, name) {
    }
    forall k: Key | k in t.cache.pinned && 0 <= k.piece ensures exists i :: Serves(t, i, k.torrent) {
      var i :| Serves(s, i, k.torrent);
      assert Serves(t, i, k.torrent);
    }
    forall i, k | i in t.coordinators && Serves(t, k, t.coordinators[i].torrent) && !t.coordinators[i].closed ensures i == k {
      if i != j && k != j {
        assert Serves(s, k, s.coordinators[i].torrent);
      } else if k != j {
        assert !Serves(s, k, torrent);
      } else if i != j {
        assert !Serves(s, i, torrent);
      }
    }
  }

  // ---- the cache moves

  lemma ElsewhereInv(s: Session, cache: C.State)
    requires SessionInv(s) && KeepsPins(s, cache)
    ensures SessionInv(s.(cache := cache))
  {
    var t := s.(cache := cache);
    forall j | j in t.coordinators ensures Sound(View(t, j)) {
      var l := s.coordinators[j];
      assert Sound(View(s, j));
      if !l.closed {
        forall p: nat ensures Key(l.torrent, p) in cache.pinned <==> p in l.refs {
          assert Key(l.torrent, p) in s.cache.pinned <==> p in l.refs;
        }
      }
    }
    assert LeaseCounts(t) == LeaseCounts(s);
    forall j, torrent ensures Serves(t, j, torrent) <==> Serves(s, j, torrent) {
    }
    forall k: Key | k in t.cache.pinned && 0 <= k.piece ensures exists i :: Serves(t, i, k.torrent) {
      var i :| Serves(s, i, k.torrent);
      assert Serves(t, i, k.torrent);
    }
  }

  /** Dropping a torrent nobody serves takes no pin away: there is none. */
  lemma ForgetKeepsPins(s: Session, torrent: string)
    requires C.Inv(s.cache) && Attended(s) && Free(s, torrent)
    ensures KeepsPins(s, C.Invalidate(s.cache, torrent))
  {
    C.InvalidateInv(s.cache, torrent);
    forall k: Key | 0 <= k.piece && k in s.cache.pinned ensures k.torrent != torrent {
      var j :| Serves(s, j, k.torrent);
    }
  }

  // ------------------------------------------------------------------------- runs

  lemma NextInv(s: Session, e: Event)
    requires SessionInv(s)
    ensures SessionInv(Next(s, e)) && Next(s, e).budget.limit == s.budget.limit
  {
    match e {
      case Operate(j, acts) =>
        if j in s.coordinators {
          PerformSound(View(s, j), acts);
          if s.coordinators[j].closed {
            OperateClosed(s, j, acts);
          } else {
            OperateOpen(s, j, acts);
          }
        }
      case Start(j, torrent) => if j !in s.coordinators && Free(s, torrent) { StartInv(s, j, torrent); }
      case Forget(torrent) =>
        if Free(s, torrent) {
          ForgetKeepsPins(s, torrent);
          ElsewhereInv(s, C.Invalidate(s.cache, torrent));
        }
      case Elsewhere(cache) => if KeepsPins(s, cache) { ElsewhereInv(s, cache); }
    }
  }

  ghost function After(s: Session, events: seq<Event>): Session {
    if events == [] then s else Next(After(s, events[..|events| - 1]), events[|events| - 1])
  }

  ghost function Opening(capacity: int, limit: int): Session {
    Session(C.Empty(capacity), Budget(limit, 0), map[])
  }

  /** The piece is referenced by the coordinator at work for its torrent. */
  ghost predicate Referenced(s: Session, k: Key) {
    exists j :: Serves(s, j, k.torrent) && 0 <= k.piece && k.piece in s.coordinators[j].refs
  }

  lemma {:induction false} RunInv(capacity: int, limit: int, events: seq<Event>)
    requires 0 <= limit
    ensures var s := After(Opening(capacity, limit), events); SessionInv(s) && s.budget.limit == limit
  {
    if events == [] {
      C.EmptyInv(capacity);
      assert LeaseCounts(Opening(capacity, limit)) == map[];
    } else {
      RunInv(capacity, limit, events[..|events| - 1]);
      NextInv(After(Opening(capacity, limit), events[..|events| - 1]), events[|events| - 1]);
    }
  }

  lemma PinsAreReferences(s: Session, k: Key)
    requires SessionInv(s) && 0 <= k.piece
    ensures k in s.cache.pinned <==> Referenced(s, k)
  {
    var i: nat := k.piece;
    assert k == Key(k.torrent, i);
    forall j | Serves(s, j, k.torrent) ensures k in s.cache.pinned <==> i in s.coordinators[j].refs {
      assert Inv(View(s, j));
    }
  }

  /** In every run of any number of coordinators, with torrents closed, dropped and opened again:
      used equals the leases that are out and stays within the limit; the pinned pieces are exactly
      those referenced by the coordinator at work for their torrent; and a coordinator that was shut
      down holds nothing. */
  lemma SessionRuns(capacity: int, limit: int, events: seq<Event>)
    requires 0 <= limit
    ensures var s := After(Opening(capacity, limit), events);
      && s.budget.limit == limit && 0 <= s.budget.used == Sum(LeaseCounts(s)) <= limit && Distinct(s)
      && (forall k: Key :: 0 <= k.piece ==> (k in s.cache.pinned <==> Referenced(s, k)))
      && (forall j :: j in s.coordinators ==> Sound(View(s, j)))
  {
    RunInv(capacity, limit, events);
    var s := After(Opening(capacity, limit), events);
    forall k: Key | 0 <= k.piece ensures k in s.cache.pinned <==> Referenced(s, k) {
      PinsAreReferences(s, k);
    }
  }

  /** In every run, whatever a closed coordinator is still asked to do leaves the whole session as it
      is: the budget, the cache, and a later coordinator of the same torrent with its pins. */
  lemma ClosedCoordinatorInert(capacity: int, limit: int, events: seq<Event>, j: nat, acts: seq<Action>)
    requires 0 <= limit
    requires var s := After(Opening(capacity, limit), events); j in s.coordinators && s.coordinators[j].closed
    ensures var s := After(Opening(capacity, limit), events); Next(s, Operate(j, acts)) == s
  {
    RunInv(capacity, limit, events);
    OperateClosed(After(Opening(capacity, limit), events), j, acts);
  }

  /** Shutting down the coordinator at work for a torrent refunds its leases and frees the torrent. */
  lemma ShutFrees(s: Session, j: nat, cancels: seq<nat>, unpins: seq<nat>)
    requires Distinct(s) && Consistent(s) && j in s.coordinators && !s.coordinators[j].closed
    requires Enabled(View(s, j), Shuts(cancels, unpins))
    ensures var t := Next(s, Operate(j, [Shuts(cancels, unpins)]));
      && Free(t, s.coordinators[j].torrent) && t.coordinators.Keys == s.coordinators.Keys && Idle(t.coordinators[j])
      && t.budget.used == s.budget.used - |s.coordinators[j].active|
  {
    var w, torrent := View(s, j), s.coordinators[j].torrent;
    ShutInv(w, cancels, unpins);
    DoesOne(w, Shuts(cancels, unpins));
    var t := Next(s, Operate(j, [Shuts(cancels, unpins)]));
    CancelAllCore(w, cancels, {}, map[]);
    forall i ensures !Serves(t, i, torrent) {
      assert Serves(t, i, torrent) ==> Serves(s, i, torrent);
    }
  }

  lemma StartsClean(s: Session, j: nat, torrent: string)
    requires Attended(s) && Free(s, torrent) && j !in s.coordinators
    ensures var t := Next(s, Start(j, torrent));
      && Serves(t, j, torrent) && t.budget == s.budget && (forall i: nat :: Key(torrent, i) !in t.cache.pinned)
      && (forall i :: i in s.coordinators ==> t.coordinators[i] == s.coordinators[i])
  {
    FreeUnpinned(s, torrent);
  }

  /** In every run, once the coordinator at work for a torrent is shut down the torrent can be served
      again: a new coordinator starts without a pin or a lease. */
  lemma Restarts(capacity: int, limit: int, events: seq<Event>, j: nat, cancels: seq<nat>, unpins: seq<nat>, next: nat)
    requires 0 <= limit
    requires var s := After(Opening(capacity, limit), events);
      && j in s.coordinators && !s.coordinators[j].closed && next !in s.coordinators
      && Enabled(View(s, j), Shuts(cancels, unpins))
    ensures var s := After(Opening(capacity, limit), events);
      var torrent := s.coordinators[j].torrent;
      var t := Next(Next(s, Operate(j, [Shuts(cancels, unpins)])), Start(next, torrent));
      && Serves(t, next, torrent) && !Serves(t, j, torrent) && Idle(t.coordinators[j])
      && (forall i: nat :: Key(torrent, i) !in t.cache.pinned)
      && t.budget.used == s.budget.used - |s.coordinators[j].active|
  {
    var s := After(Opening(capacity, limit), events);
    var e := Operate(j, [Shuts(cancels, unpins)]);
    RunInv(capacity, limit, events);
    ShutFrees(s, j, cancels, unpins);
    NextInv(s, e);
    StartsClean(Next(s, e), next, s.coordinators[j].torrent);
  }
}
