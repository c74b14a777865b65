/** The read-ahead coordinator of one torrent and the budget it shares with the others. */
module Prefetch {
  import opened Types
  import opened Sums
  import opened Spans
  import opened Playback
  import C = CacheModel
  import opened PieceCache
  import P = PrefetchModel
  import opened PrefetchModel
  import opened PrefetchSystem
  import L = PlayerModel
  import opened PlayerModel
  import opened PlaybackWindow

  class SharedBudget {
    const limit: int
    var used: int

    constructor (limit: int)
      ensures this.limit == (if limit < 1 then 1 else limit) && used == 0
    {
      this.limit := if limit < 1 then 1 else limit;
      used := 0;
    }

    ghost function Value(): Budget
      reads this
    {
      Budget(limit, used)
    }

    method TryAcquire() returns (ok: bool)
      modifies this
      ensures ok == (old(used) < limit) && used == old(used) + One(ok)
    {
      if used >= limit {
        return false;
      }
      used := used + 1;
      return true;
    }

    method Release()
      modifies this
      ensures Value() == P.Refund(old(Value()))
    {
      if used > 0 {
        used := used - 1;
      }
    }
  }

  function TagOf(t: Ticket): Tag {
    Tag(t.generation, t.file, t.kind, t.candidate)
  }

  /** What the tickets mean for playback. */
  ghost function Tags(foreground: map<nat, Ticket>): map<nat, Tag> {
    map id | id in foreground :: TagOf(foreground[id])
  }

  class Coordinator {
    const torrentKey: string
    const cache: Cache
    const budget: SharedBudget
    var closed: bool
    var hasAnchor: bool
    var anchorConfirmed: bool
    var anchor: Anchor
    var generation: nat
    var nextTicket: nat
    var nextCandidate: nat
    var consumed: seq<Span>
    var candidate: Option<Candidate>
    var foreground: map<nat, Ticket>
    var foregroundPieces: map<nat, int>
    var refs: map<nat, int>
    var windowPins: set<nat>
    var active: set<nat>
    ghost var start: int           // where the current anchor began
    ghost var log: seq<Span>       // successful reads since then
    ghost var sightings: seq<Span> // successful reads of the current candidate

    ghost function Ledger(): P.Ledger
      reads this
    {
      P.Ledger(torrentKey, closed, hasAnchor, foreground, foregroundPieces, refs, windowPins, active)
    }

    ghost function World(): P.World
      reads this, cache, budget
    {
      P.World(Ledger(), cache.State(), budget.Value())
    }

    ghost function Playing(): Player
      reads this
    {
      Player(closed, hasAnchor, anchorConfirmed, anchor, generation, nextTicket, nextCandidate, consumed, candidate,
             Tags(foreground), start, log, sightings)
    }

    /** The ledger agrees with the cache and the budget, or is empty once closed; and playback agrees with
        its read log. */
    ghost predicate Valid()
      reads this, cache, budget
    {
      Sound(World()) && L.Inv(Playing())
    }

    constructor (torrentKey: string, cache: Cache, budget: SharedBudget)
      requires C.Inv(cache.State()) && 0 <= budget.used <= budget.limit
      requires forall i: nat :: Key(torrentKey, i) !in cache.pinned
      ensures Valid() && this.torrentKey == torrentKey && this.cache == cache && this.budget == budget
      ensures Playing() == L.Fresh() && active == {}
    {
      this.torrentKey, this.cache, this.budget := torrentKey, cache, budget;
      closed, hasAnchor, anchorConfirmed := false, false, false;
      anchor := Anchor(File(0, 0, 0, 0, 0), 0, 0, 0, 0, 0);
      generation, nextTicket, nextCandidate := 0, 0, 0;
      consumed, candidate, foreground := [], None, map[];
      foregroundPieces, refs, windowPins, active := map[], map[], {}, {};
      start, log, sightings := 0, [], [];
      new;
      P.EmptyInv(torrentKey, false, cache.State(), budget.Value());
      assert Tags(foreground) == map[];
      L.RunInv([]);
    }

    // -------------------------------------------------------------- references

    function PieceSize(i: nat): int
      reads this
    {
      Size(anchor.pieceLength, anchor.torrentSize, i)
    }

    method RetainPiece(i: nat) returns (ok: bool)
      modifies this`refs, cache`pinned, cache`pinnedSizes, cache`pinnedSized, cache`pinnedBytes
      ensures (World(), ok) == Retain(old(World()), i, PieceSize(i))
    {
      if Get(refs, i) == 0 {
        ok := cache.PinSize(Key(torrentKey, i), PieceSize(i));
        if !ok {
          return false;
        }
      }
      refs := refs[i := Get(refs, i) + 1];
      return true;
    }

    method ReleasePiece(i: nat)
      requires C.Linked(cache.State())
      modifies this`refs, cache
      ensures World() == P.Release(old(World()), i) && C.Linked(cache.State())
    {
      if Get(refs, i) <= 0 {
        return;
      }
      if refs[i] > 1 {
        refs := refs[i := refs[i] - 1];
      } else {
        refs := refs - {i};
        cache.Unpin(Key(torrentKey, i));
      }
    }

    method CancelLease(i: nat)
      modifies this`active, budget
      ensures World() == Cancel(old(World()), i) && budget.used <= old(budget.used)
    {
      if i !in active {
        return;
      }
      active := active - {i};
      budget.Release();
    }

    method UnpinWindow(i: nat)
      requires C.Linked(cache.State())
      modifies this`windowPins, this`refs, cache
      ensures World() == Unwindow(old(World()), i) && C.Linked(cache.State())
    {
      windowPins := windowPins - {i};
      ReleasePiece(i);
    }

    /** Gives back every window pin outside `wanted`, in whatever order the set yields them. */
    method DropWindowPins(wanted: set<nat>) returns (ghost order: seq<nat>)
      requires C.Linked(cache.State())
      modifies this`windowPins, this`refs, cache
      ensures World() == UnwindowAll(old(World()), order) && C.Linked(cache.State())
      ensures C.NoDuplicates(order) && forall i :: i in order <==> i in old(windowPins) && i !in wanted
    {
      order := [];
      var todo := windowPins - wanted;
      while todo != {}
        invariant World() == UnwindowAll(old(World()), order) && C.Linked(cache.State())
        invariant C.NoDuplicates(order)
        invariant forall i :: i in order <==> i in old(windowPins) && i !in wanted && i !in todo
        invariant forall i :: i in todo ==> i in old(windowPins) && i !in wanted
        decreases |todo|
      {
        var i :| i in todo;
        UnpinWindow(i);
        assert (order + [i])[..|order|] == order;
        order := order + [i];
        todo := todo - {i};
      }
    }

    /** Cancels every lease outside `wanted`, and every lease on a piece that is being read. */
    method CancelUnneeded(wanted: set<nat>) returns (ghost order: seq<nat>)
      modifies this`active, budget
      ensures World() == CancelAll(old(World()), order) && budget.used <= old(budget.used)
      ensures forall i :: i in order <==> i in old(active) && !(i in wanted && i !in foregroundPieces)
      ensures forall i :: i in active <==> i in old(active) && i in wanted && i !in foregroundPieces
    {
      order := [];
      var todo := active;
      while todo != {}
        invariant World() == CancelAll(old(World()), order) && budget.used <= old(budget.used)
        invariant forall i :: i in active <==> i in old(active) && i !in order
        invariant forall i :: i in todo ==> i in old(active)
        invariant forall i :: i in order <==> i in old(active) && i !in todo && !(i in wanted && i !in foregroundPieces)
        decreases |todo|
      {
        var i :| i in todo;
        todo := todo - {i};
        if i in wanted && i !in foregroundPieces {
          continue;
        }
        CancelLease(i);
        assert (order + [i])[..|order|] == order;
        order := order + [i];
      }
    }

    // ----------------------------------------------------------------- tickets

    /** A ticket leaves the table, then its waits and its references are given back. */
    method RemoveForeground(id: nat) returns (ghost a: Action)
      requires id in foreground && Positive(foreground[id].active) && C.Linked(cache.State())
      modifies this`foreground, this`foregroundPieces, this`refs, cache
      ensures a.Leaves? && Enabled(old(World()), a) && World() == Act(old(World()), a)
      ensures foreground == old(foreground) - {id} && C.Linked(cache.State())
      ensures Tickets(old(foreground), nextTicket) ==> Tickets(foreground, nextTicket)
    {
      var ticket := foreground[id];
      foreground := foreground - {id};
      foregroundPieces := ReleaseWaits(foregroundPieces, ticket.active);
      ghost var w, order: seq<nat> := World(), [];
      var todo := ticket.pinned;
      while todo != {}
        invariant World() == P.ReleaseAll(w, order) && C.Linked(cache.State())
        invariant foreground == old(foreground) - {id}
        invariant C.NoDuplicates(order) && forall i :: i in order <==> i in ticket.pinned && i !in todo
        invariant forall i :: i in todo ==> i in ticket.pinned
        decreases |todo|
      {
        var i :| i in todo;
        ReleasePiece(i);
        assert (order + [i])[..|order|] == order;
        order := order + [i];
        todo := todo - {i};
      }
      a := Leaves(id, order);
    }

    /** Takes references for a new ticket; refused keys are simply not held. */
    method RetainKeys(keys: seq<nat>) returns (granted: set<nat>)
      modifies this`refs, cache`pinned, cache`pinnedSizes, cache`pinnedSized, cache`pinnedBytes
      ensures (World(), granted) == RetainSeq(old(World()), keys, anchor.pieceLength, anchor.torrentSize)
    {
      granted := {};
      for k := 0 to |keys|
        invariant (World(), granted) == RetainSeq(old(World()), keys[..k], anchor.pieceLength, anchor.torrentSize)
      {
        assert keys[..k + 1][..k] == keys[..k];
        var ok := RetainPiece(keys[k]);
        if ok {
          granted := granted + {keys[k]};
        }
      }
      assert keys[..|keys|] == keys;
    }

    method CancelKeys(keys: seq<nat>)
      modifies this`active, budget
      ensures World() == CancelAll(old(World()), keys)
    {
      for k := 0 to |keys|
        invariant World() == CancelAll(old(World()), keys[..k])
      {
        assert keys[..k + 1][..k] == keys[..k];
        CancelLease(keys[k]);
      }
      assert keys[..|keys|] == keys;
    }

    // ---------------------------------------------------------------- playback

    /** Moves the cursor over the delivered spans and forgets a candidate it left far behind. */
    method AdvanceAnchor()
      modifies this`consumed, this`anchor, this`candidate
      ensures var (c, rest) := Advance(old(consumed), old(anchor.cursor));
        consumed == rest && anchor == old(anchor).(cursor := ClampCursor(c, old(anchor.fileSize)))
      ensures candidate == Nearby(old(candidate), anchor.cursor)
    {
      var cursor, remaining := AdvanceLoop(consumed, anchor.cursor);
      consumed := remaining;
      anchor := anchor.(cursor := ClampCursor(cursor, anchor.fileSize));
      if candidate.Some? && Abs(anchor.cursor - candidate.value.start) > SEEK_CLEAR {
        candidate := None;
      }
    }

    /** A successful read inside the window. */
    method RecordConsumed(off: int, n: int)
      requires Separated(consumed)
      modifies this`consumed, this`anchor, this`anchorConfirmed, this`candidate, this`log
      ensures Playing() == Recorded(old(Playing()), off, n)
    {
      var (s, e) := ClampReadSpan(off, n, anchor.fileSize);
      if e <= s {
        return;
      }
      var previous := anchor.cursor;
      Consume(s, e);
      log := log + [Span(s, e)];
      if anchor.cursor > previous {
        anchorConfirmed := true;
      }
    }

    /** Merges a delivered span and moves the cursor. */
    method Consume(s: int, e: int)
      requires Separated(consumed) && s < e
      modifies this`consumed, this`anchor, this`candidate
      ensures var t := Record(Track(old(anchor.fileSize), old(anchor.cursor), old(consumed)), s, e);
        consumed == t.consumed && anchor == old(anchor).(cursor := t.cursor)
      ensures candidate == Nearby(old(candidate), anchor.cursor)
    {
      var merged, _ := MergeByteSpan(consumed, Span(s, e));
      consumed := merged;
      AdvanceAnchor();
    }

    /** A successful read of the candidate; true when it is the one that confirms the seek. */
    method RecordCandidate(id: nat, ticket: Ticket, off: int, n: int) returns (confirms: bool)
      requires candidate.Some? ==> Separated(candidate.value.spans)
      modifies this`candidate, this`sightings
      ensures Playing() == Noted(old(Playing()), id, TagOf(ticket), off, n)
      ensures confirms == Confirms(old(candidate), id, TagOf(ticket), off, n)
    {
      if candidate == None || ticket.candidate != candidate.value.id
         || ticket.generation != candidate.value.generation || ticket.file != candidate.value.file {
        return false;
      }
      var c := candidate.value;
      var (s, e) := ClampReadSpan(off, n, c.file.size);
      if e <= s || id in c.successfulTickets {
        return false;
      }
      var merged, added := MergeByteSpan(c.spans, Span(s, e));
      sightings := sightings + [Span(s, e)];
      if added <= 0 {
        candidate := Some(c.(spans := merged));
        return false;
      }
      candidate := Some(Credit(c, id, merged, added));
      return candidate.value.successfulReadings >= SEEK_CONFIRMATIONS;
    }

    // ------------------------------------------------------------- operations

    /** Empties the window but keeps the anchor: pins first, then leases. */
    method AbandonWindow() returns (ghost a: Action)
      requires C.Linked(cache.State())
      modifies this`windowPins, this`refs, this`active, cache, budget
      ensures a.Abandons? && Enabled(old(World()), a) && World() == Act(old(World()), a) && C.Linked(cache.State())
    {
      ghost var unwinds := DropWindowPins({});
      ghost var cancels := CancelUnneeded({});
      a := Abandons(unwinds, cancels);
    }

    /** Forgets the anchor; its leases and pins are already gone. */
    method ForgetAnchor()
      modifies this`hasAnchor, this`anchorConfirmed, this`consumed, this`candidate
      ensures Playing() == GivenUp(old(Playing())) && World() == Unanchored(old(World()))
    {
      hasAnchor, anchorConfirmed := false, false;
      consumed, candidate := [], None;
    }

    /** Gives the anchor up: leases first, then pins. */
    method GiveUpAnchor() returns (ghost a: Action)
      requires C.Linked(cache.State())
      modifies this`windowPins, this`refs, this`active, this`hasAnchor, this`anchorConfirmed, this`consumed, this`candidate, cache, budget
      ensures a.Drops? && Enabled(old(World()), a) && World() == Act(old(World()), a) && C.Linked(cache.State())
      ensures Playing() == GivenUp(old(Playing()))
    {
      ghost var cancels, unwinds;
      cancels, unwinds := EmptyWindow();
      ForgetAnchor();
      a := Drops(cancels, unwinds);
    }

    /** Cancels every lease, then returns every window pin. */
    method EmptyWindow() returns (ghost cancels: seq<nat>, ghost unwinds: seq<nat>)
      requires C.Linked(cache.State())
      modifies this`windowPins, this`refs, this`active, cache, budget
      ensures World() == UnwindowAll(CancelAll(old(World()), cancels), unwinds) && C.Linked(cache.State())
      ensures Enabled(old(World()), Drops(cancels, unwinds))
    {
      cancels := CancelUnneeded({});
      unwinds := DropWindowPins({});
    }

    method SetAnchor(f: File, cursor: int)
      modifies this`hasAnchor, this`anchor, this`anchorConfirmed, this`generation, this`consumed, this`candidate,
               this`start, this`log
      ensures hasAnchor && !anchorConfirmed && anchor == AnchorAt(f, cursor) && generation == old(generation) + 1
      ensures consumed == [] && candidate == None && start == cursor && log == []
    {
      generation := generation + 1;
      anchor := AnchorAt(f, cursor);
      hasAnchor, anchorConfirmed := true, false;
      consumed, candidate := [], None;
      start, log := cursor, [];
    }

    /** Decides what a read means for playback: it sets the anchor, belongs to the window, belongs to
        the candidate, or opens a new candidate. A held anchor is never moved here. */
    method Classify(f: File, requestStart: int) returns (kind: Kind, candidateId: nat)
      modifies this`hasAnchor, this`anchor, this`anchorConfirmed, this`generation, this`consumed, this`candidate,
               this`nextCandidate, this`start, this`log, this`sightings
      ensures (Playing(), kind, candidateId) == Classified(old(Playing()), f, requestStart) && hasAnchor
      ensures Ledger() == old(Ledger()).(hasAnchor := true)
    {
      if !hasAnchor {
        SetAnchor(f, requestStart);
        return CurrentWindow, 0;
      }
      if InWindow(anchor, f, requestStart) {
        return CurrentWindow, 0;
      }
      if NearCandidate(candidate, generation, f, requestStart) {
        return CandidateRead, candidate.value.id;
      }
      nextCandidate := nextCandidate + 1;
      candidate := Some(Candidate(nextCandidate, generation, f, requestStart, [], {}, 0, 0));
      sightings := [];
      return ForegroundOnly, nextCandidate;
    }

    /** Enters a ticket with the references it was granted and takes its pieces off the lease list. */
    method Join(id: nat, t: Ticket, keys: seq<nat>)
      requires hasAnchor && t.active == map[]
      modifies this`refs, this`foreground, this`active, cache`pinned, cache`pinnedSizes, cache`pinnedSized,
               cache`pinnedBytes, budget
      ensures World() == Enter(old(World()), id, t, keys, anchor.pieceLength, anchor.torrentSize)
      ensures Playing() == old(Playing()).(tags := old(Playing()).tags[id := TagOf(t)])
    {
      var granted := RetainKeys(keys);
      TagsInsert(foreground, id, t.(pinned := granted));
      foreground := foreground[id := t.(pinned := granted)];
      CancelKeys(keys);
    }

    /** The ticket joins a coordinator whose anchor, if it was new, is already set. */
    method JoinRead(ghost w: P.World, id: nat, t: Ticket, keys: seq<nat>) returns (ghost a: Action)
      requires hasAnchor && t.active == map[] && World() == w.(ledger := w.ledger.(hasAnchor := true))
      requires !w.ledger.closed && id !in w.ledger.foreground && C.NoDuplicates(keys)
      modifies this`refs, this`foreground, this`active, cache`pinned, cache`pinnedSizes, cache`pinnedSized,
               cache`pinnedBytes, budget
      ensures a == Joins(id, t, keys, anchor.pieceLength, anchor.torrentSize) && Enabled(w, a) && World() == Act(w, a)
      ensures Playing() == old(Playing()).(tags := old(Playing()).tags[id := TagOf(t)])
    {
      Join(id, t, keys);
      a := Joins(id, t, keys, anchor.pieceLength, anchor.torrentSize);
    }

    /** A read begins: its ticket asks for exactly the wanted pieces. */
    method EnterRead(f: File, requestStart: int, wanted: seq<nat>) returns (id: nat, ghost a: Action)
      requires !closed && Tickets(foreground, nextTicket)
      modifies this, cache, budget
      ensures a.Joins? && a.id == id && a.ticket.file == f && (forall i :: i in a.keys <==> i in wanted)
      ensures Enabled(old(World()), a) && World() == Act(old(World()), a)
      ensures Playing() == Begun(old(Playing()), f, requestStart, requestStart + 1)
    {
      var keys := UniquePieceIndexes(wanted);
      ghost var w := World();
      var kind, candidateId := Classify(f, requestStart);
      nextTicket := nextTicket + 1;
      id := nextTicket;
      a := JoinRead(w, id, Ticket(generation, f, kind, candidateId, {}, map[]), keys);
    }

    method BeginWait(id: nat, i: nat)
      modifies this`active, this`foreground, this`foregroundPieces, budget
      ensures World() == Act(old(World()), Starts(id, i)) && Tags(foreground) == Tags(old(foreground))
    {
      if id !in foreground {
        return;
      }
      CancelLease(i);
      var t := foreground[id];
      TagsInsert(foreground, id, t.(active := Up(t.active, i)));
      foreground := foreground[id := t.(active := Up(t.active, i))];
      foregroundPieces := Up(foregroundPieces, i);
    }

    method EndWait(id: nat, i: nat)
      modifies this`foreground, this`foregroundPieces
      ensures World() == Act(old(World()), Ends(id, i)) && Tags(foreground) == Tags(old(foreground))
    {
      if id !in foreground || i !in foreground[id].active {
        return;
      }
      var t := foreground[id];
      TagsInsert(foreground, id, t.(active := Down(t.active, i)));
      foreground := foreground[id := t.(active := Down(t.active, i))];
      foregroundPieces := Down(foregroundPieces, i);
    }

    /** A confirmed seek: the anchor moves to the candidate and starts from what its reads delivered. */
    method Reanchor()
      requires candidate.Some?
      modifies this`generation, this`anchor, this`anchorConfirmed, this`consumed, this`candidate, this`start, this`log
      ensures Playing() == Reanchored(old(Playing()))
    {
      var c := candidate.value;
      generation := generation + 1;
      anchor := AnchorAt(c.file, ClampCursor(c.start, c.file.size));
      anchorConfirmed := true;
      consumed, candidate := c.spans, None;
      start, log := c.start, sightings;
      AdvanceAnchor();
    }

    method RetagTicket(id: nat) returns (ghost a: Action)
      requires id in foreground
      modifies this`foreground
      ensures a.Retags? && Enabled(old(World()), a) && World() == Act(old(World()), a)
      ensures Playing() == Retagged(old(Playing()), id) && id in foreground
      ensures Tickets(old(foreground), nextTicket) ==> Tickets(foreground, nextTicket)
    {
      var t := foreground[id].(generation := generation, kind := CurrentWindow, candidate := 0);
      TagsInsert(foreground, id, t);
      foreground := foreground[id := t];
      a := Retags(id, t);
    }

    /** What a successful read does to playback: it advances the cursor of its own window, or it
        counts towards the candidate and may confirm the seek; the ticket is then still to be retagged. */
    method CreditRead(id: nat, off: int, n: int) returns (confirms: bool)
      requires id in foreground && Spread(Playing())
      modifies this`consumed, this`anchor, this`anchorConfirmed, this`candidate, this`log, this`sightings, this`generation,
               this`start
      ensures id in Playing().tags
      ensures Credited(old(Playing()), id, off, n) == if confirms then Retagged(Playing(), id) else Playing()
    {
      var ticket := foreground[id];
      confirms := false;
      if ticket.kind == CurrentWindow {
        if anchor.file == ticket.file {
          RecordConsumed(off, n);
        }
      } else {
        confirms := RecordCandidate(id, ticket, off, n);
        if confirms {
          Reanchor();
        }
      }
    }

    /** Whether another read of this window is still running. */
    method WindowInUse() returns (inUse: bool)
      ensures inUse <==> WindowUsed(Tags(foreground), generation)
    {
      var todo := foreground.Keys;
      while todo != {}
        invariant forall id :: id in todo ==> id in foreground
        invariant forall id :: id in foreground && id !in todo ==>
          !(foreground[id].generation == generation && foreground[id].kind == CurrentWindow)
        decreases |todo|
      {
        var id :| id in todo;
        if foreground[id].generation == generation && foreground[id].kind == CurrentWindow {
          assert id in Tags(foreground);
          return true;
        }
        todo := todo - {id};
      }
      return false;
    }

    /** A confirmed seek empties the old window, and its ticket now reads the new one. */
    method MoveWindow(id: nat) returns (ghost acts: seq<Action>)
      requires C.Linked(cache.State()) && Tickets(foreground, nextTicket) && id in foreground
      modifies this`windowPins, this`refs, this`active, this`foreground, cache, budget
      ensures C.Linked(cache.State()) && Tickets(foreground, nextTicket) && Does(old(World()), acts, World())
      ensures id in foreground && Playing() == Retagged(old(Playing()), id)
    {
      ghost var w := World();
      ghost var a := AbandonWindow();
      ghost var v := World();
      ghost var r := RetagTicket(id);
      DoesOne(w, a);
      DoesOne(v, r);
      acts := [a] + [r];
      DoesThen(w, [a], v, [r], World());
    }

    method FollowUp(id: nat, confirms: bool) returns (ghost acts: seq<Action>)
      requires C.Linked(cache.State()) && Tickets(foreground, nextTicket) && id in foreground
      modifies this`windowPins, this`refs, this`active, this`foreground, cache, budget
      ensures C.Linked(cache.State()) && Tickets(foreground, nextTicket) && Does(old(World()), acts, World())
      ensures id in foreground && Playing() == if confirms then Retagged(old(Playing()), id) else old(Playing())
    {
      acts := [];
      if confirms {
        acts := MoveWindow(id);
      }
    }

    /** Playback learns what a read delivered, if it may count. */
    method Learn(id: nat, off: int, n: int, delivered: bool) returns (confirms: bool)
      requires id in foreground && Spread(Playing())
      modifies this`consumed, this`anchor, this`anchorConfirmed, this`candidate, this`log, this`sightings, this`generation,
               this`start
      ensures id in Playing().tags && Ledger() == old(Ledger())
      ensures Settled(old(Playing()), id, off, n, delivered) == if confirms then Retagged(Playing(), id) else Playing()
    {
      confirms := false;
      if n > 0 && delivered && foreground[id].generation == generation && hasAnchor {
        confirms := CreditRead(id, off, n);
      }
    }

    /** First half of a finished read. */
    method Settle(id: nat, off: int, n: int, delivered: bool) returns (ghost acts: seq<Action>)
      requires C.Linked(cache.State()) && Tickets(foreground, nextTicket) && id in foreground && Spread(Playing())
      modifies this`consumed, this`anchor, this`anchorConfirmed, this`candidate, this`log, this`sightings, this`generation,
               this`start, this`windowPins, this`refs, this`active, this`foreground, cache, budget
      ensures C.Linked(cache.State()) && Tickets(foreground, nextTicket) && id in foreground
      ensures Does(old(World()), acts, World()) && Playing() == Settled(old(Playing()), id, off, n, delivered)
    {
      var confirms := Learn(id, off, n, delivered);
      acts := FollowUp(id, confirms);
    }

    method LeaveTicket(id: nat, ghost w: P.World, ghost before: seq<Action>) returns (ghost acts: seq<Action>)
      requires id in foreground && Tickets(foreground, nextTicket) && C.Linked(cache.State()) && Does(w, before, World())
      modifies this`foreground, this`foregroundPieces, this`refs, cache
      ensures Does(w, acts, World()) && C.Linked(cache.State())
      ensures Playing() == old(Playing()).(tags := old(Playing()).tags - {id})
    {
      ghost var v := World();
      TagsRemove(foreground, id);
      ghost var leave := RemoveForeground(id);
      DoesOne(v, leave);
      DoesThen(w, before, v, [leave], World());
      acts := before + [leave];
    }

    method GiveUp(ghost w: P.World, ghost before: seq<Action>) returns (ghost acts: seq<Action>)
      requires C.Linked(cache.State()) && Does(w, before, World())
      modifies this`windowPins, this`refs, this`active, this`hasAnchor, this`anchorConfirmed, this`consumed, this`candidate,
               cache, budget
      ensures C.Linked(cache.State()) && Does(w, acts, World()) && Playing() == GivenUp(old(Playing()))
    {
      ghost var v := World();
      ghost var drop := GiveUpAnchor();
      DoesOne(v, drop);
      DoesThen(w, before, v, [drop], World());
      acts := before + [drop];
    }

    /** An anchor nobody reads any more is given up. */
    method DropUnused(ghost w: P.World, ghost before: seq<Action>) returns (ghost acts: seq<Action>)
      requires C.Linked(cache.State()) && Does(w, before, World())
      modifies this`windowPins, this`refs, this`active, this`hasAnchor, this`anchorConfirmed, this`consumed, this`candidate,
               cache, budget
      ensures Does(w, acts, World())
      ensures Playing() == if WindowUsed(Tags(foreground), generation) then old(Playing()) else GivenUp(old(Playing()))
    {
      acts := before;
      var inUse := WindowInUse();
      if !inUse {
        acts := GiveUp(w, before);
      }
    }

    /** Second half: the ticket leaves, and an anchor that no read confirmed goes with its last reader. */
    method Depart(id: nat, ghost w: P.World, ghost before: seq<Action>) returns (ghost acts: seq<Action>)
      requires C.Linked(cache.State()) && Tickets(foreground, nextTicket) && id in foreground && Does(w, before, World())
      modifies this`foreground, this`foregroundPieces, this`refs, this`windowPins, this`active, this`hasAnchor,
               this`anchorConfirmed, this`consumed, this`candidate, cache, budget
      ensures Does(w, acts, World()) && Playing() == Departed(old(Playing()), id)
    {
      var kind := foreground[id].kind;
      acts := LeaveTicket(id, w, before);
      if kind == CurrentWindow && !anchorConfirmed {
        acts := DropUnused(w, acts);
      }
    }

    method EndRead(id: nat, off: int, n: int, delivered: bool) returns (ghost acts: seq<Action>)
      requires C.Linked(cache.State()) && Tickets(foreground, nextTicket) && Spread(Playing())
      modifies this, cache, budget
      ensures Does(old(World()), acts, World()) && Playing() == Finished(old(Playing()), id, off, n, delivered)
    {
      acts := [];
      if id !in foreground {
        return;
      }
      ghost var w := World();
      acts := Settle(id, off, n, delivered);
      acts := Depart(id, w, acts);
    }

    // ---------------------------------------------------------- reconciliation

    /** Exactly the pieces of the playback window, in order. */
    method DesiredPieces() returns (desired: seq<nat>)
      requires hasAnchor ==> 0 <= anchor.fileStart && 0 <= anchor.cursor
      ensures !hasAnchor ==> desired == []
      ensures hasAnchor ==> IsWindow(anchor, desired)
      ensures forall k :: 0 <= k < |desired| ==> desired[k] == desired[0] + k
    {
      if !hasAnchor || anchor.pieceLength <= 0 || anchor.fileSize <= anchor.cursor {
        return [];
      }
      var (from, end) := WindowBytes(anchor);
      if end <= from {
        return [];
      }
      desired := PiecesBetween(from, end, anchor.pieceLength);
    }

    /** Pins the desired pieces until the cache refuses one; `reserved` are the window bytes of the
        pieces before it. */
    method PinDesired(desired: seq<nat>) returns (blocked: bool, reserved: int, ghost m: nat)
      modifies this`windowPins, this`refs, cache`pinned, cache`pinnedSizes, cache`pinnedSized, cache`pinnedBytes
      ensures (World(), blocked) == WindowSeq(old(World()), desired, anchor.pieceLength, anchor.torrentSize)
      ensures Grants(old(World()), anchor, desired, m) && blocked == (m < |desired|)
      ensures reserved == Overlaps(anchor, desired[..m])
    {
      reserved := 0;
      for k := 0 to |desired|
        invariant (World(), false) == WindowSeq(old(World()), desired[..k], anchor.pieceLength, anchor.torrentSize)
        invariant reserved == Overlaps(anchor, desired[..k])
      {
        WindowSeqSnoc(old(World()), desired, k, anchor.pieceLength, anchor.torrentSize);
        var ok := PinOne(desired[k]);
        if !ok {
          WindowSeqStops(old(World()), desired, k + 1, anchor.pieceLength, anchor.torrentSize);
          return true, reserved, k;
        }
        OverlapsSnoc(anchor, desired, k);
        reserved := reserved + Overlap(anchor, desired[k]);
      }
      assert desired[..|desired|] == desired;
      return false, reserved, |desired|;
    }

    method PinOne(i: nat) returns (ok: bool)
      modifies this`windowPins, this`refs, cache`pinned, cache`pinnedSizes, cache`pinnedSized, cache`pinnedBytes
      ensures (World(), ok) == if i in old(windowPins) then (old(World()), true) else P.Window(old(World()), i, PieceSize(i))
    {
      if i in windowPins {
        return true;
      }
      ok := RetainPiece(i);
      if ok {
        windowPins := windowPins + {i};
      }
    }

    /** Leases missing window pieces in window order, until all are served or the budget is used up. */
    method AcquireLeases(desired: seq<nat>, buffered: int, high: int) returns (ghost order: seq<nat>, ghost m: nat)
      requires Positive(foregroundPieces) && budget.used <= budget.limit
      modifies this`active, budget
      ensures World() == LeaseAll(old(World()), order)
      ensures if buffered < high then Fills(old(World()), desired, order, m) else order == []
    {
      order, m := [], 0;
      ghost var w := World();
      for k := 0 to |desired|
        invariant m == k && World() == LeaseAll(w, order) && Leasing(w, desired, order, k)
        invariant forall i :: i in active <==> i in w.ledger.active || i in order
        invariant w.budget.used + |order| == budget.used <= budget.limit && |active| == |w.ledger.active| + |order|
        invariant buffered >= high ==> order == []
      {
        if buffered >= high || |active| >= budget.limit {
          break;
        }
        var leased, served := Consider(desired[k]);
        if !served {
          break;
        }
        LeasingSnoc(w, desired, order, k, leased);
        if leased {
          LeaseSnoc(w, order, desired[k]);
          order := order + [desired[k]];
        }
        m := k + 1;
      }
    }

    /** Leases one piece unless it is served already; fails only when the budget is used up. */
    method Consider(i: nat) returns (leased: bool, served: bool)
      requires Positive(foregroundPieces) && budget.used <= budget.limit
      modifies this`active, budget
      ensures !served ==> !leased && old(budget.used) >= budget.limit
      ensures served ==> leased == (Key(torrentKey, i) !in cache.items && i !in foregroundPieces && i !in old(active))
      ensures World() == if leased then LeaseOne(old(World()), i) else old(World())
      ensures active == (if leased then old(active) + {i} else old(active)) && |active| == old(|active|) + One(leased)
      ensures budget.used == old(budget.used) + One(leased) <= budget.limit
    {
      if Key(torrentKey, i) in cache.items || Get(foregroundPieces, i) > 0 || i in active {
        return false, true;
      }
      leased := TryLease(i);
      served := leased;
    }

    method TryLease(i: nat) returns (ok: bool)
      requires i !in active && budget.used <= budget.limit
      modifies this`active, budget
      ensures ok == (old(budget.used) < budget.limit) && budget.used <= budget.limit
      ensures World() == if ok then LeaseOne(old(World()), i) else old(World())
      ensures active == (if ok then old(active) + {i} else old(active)) && |active| == old(|active|) + One(ok)
      ensures budget.used == old(budget.used) + One(ok)
    {
      ok := budget.TryAcquire();
      if ok {
        active := active + {i};
      }
    }

    /** Retires the leases whose piece has arrived. */
    method CompleteActive() returns (ghost order: seq<nat>)
      modifies this`active, budget
      ensures World() == CancelAll(old(World()), order)
      ensures forall i :: i in order <==> i in old(active) && Key(torrentKey, i) in cache.items
      ensures forall i :: i in active <==> i in old(active) && Key(torrentKey, i) !in cache.items
    {
      order := [];
      var todo := active;
      while todo != {}
        invariant World() == CancelAll(old(World()), order)
        invariant forall i :: i in active <==> i in old(active) && i !in order
        invariant forall i :: i in todo ==> i in old(active)
        invariant forall i :: i in order <==> i in old(active) && i !in todo && Key(torrentKey, i) in cache.items
        decreases |todo|
      {
        var i :| i in todo;
        todo := todo - {i};
        if Key(torrentKey, i) in cache.items {
          CancelLease(i);
          assert (order + [i])[..|order|] == order;
          order := order + [i];
        }
      }
    }

    method Missing(desired: seq<nat>) returns (work: bool)
      ensures work <==> Lacks(World(), desired)
    {
      for k := 0 to |desired|
        invariant forall i :: i in desired[..k] ==> Key(torrentKey, i) in cache.items
      {
        if Key(torrentKey, desired[k]) !in cache.items {
          assert !Resident(World(), desired[k]);
          return true;
        }
        assert desired[..k + 1] == desired[..k] + [desired[k]];
      }
      assert desired[..|desired|] == desired;
      return false;
    }

    /** Prunes what left the window. */
    method Prune(desired: seq<nat>) returns (ghost a: Action)
      requires C.Linked(cache.State())
      modifies this`windowPins, this`refs, this`active, cache, budget
      ensures a.Prunes? && Enabled(old(World()), a) && World() == Act(old(World()), a) && C.Linked(cache.State())
      ensures a.wanted == desired && budget.used <= old(budget.used)
    {
      var wanted := set i | i in desired;
      ghost var unwinds := DropWindowPins(wanted);
      ghost var cancels := CancelUnneeded(wanted);
      a := Prunes(unwinds, cancels, desired);
    }

    /** Pins the window. `high` is how much of it may be buffered: what is left of the window in the
        file, or what got a reservation when the cache refused some. */
    method Reserve(desired: seq<nat>) returns (blocked: bool, high: int, ghost a: Action, ghost m: nat)
      requires hasAnchor
      modifies this`windowPins, this`refs, cache`pinned, cache`pinnedSizes, cache`pinnedSized, cache`pinnedBytes
      ensures a == Pins(desired, anchor.pieceLength, anchor.torrentSize) && World() == Act(old(World()), a)
      ensures !blocked ==> forall i :: i in desired ==> i in windowPins
      ensures Grants(old(World()), anchor, desired, m) && blocked == (m < |desired|) && high == HighMark(anchor, desired, m)
    {
      ghost var w := World();
      WindowSeqCovers(w, desired, anchor.pieceLength, anchor.torrentSize);
      var reserved;
      blocked, reserved, m := PinDesired(desired);
      a := Pins(desired, anchor.pieceLength, anchor.torrentSize);
      high := Max(Min(PLAYBACK_WINDOW, anchor.fileSize - anchor.cursor), 0);
      if blocked && reserved < high {
        high := reserved;
      }
    }

    /** Leases what is missing from a pinned window, then retires what has arrived. */
    method Lease(desired: seq<nat>, buffered: int, high: int) returns (ghost acts: seq<Action>, ghost m: nat)
      requires hasAnchor && Positive(foregroundPieces) && budget.used <= budget.limit && buffered < high
      requires forall i :: i in desired ==> i in windowPins
      modifies this`active, budget
      ensures Does(old(World()), acts, World()) && LeaseActs(old(World()), desired, acts, m)
    {
      ghost var w := World();
      ghost var order;
      order, m := AcquireLeases(desired, buffered, high);
      FillsEnabled(w, desired, order, m);
      ghost var done := CompleteActive();
      LeaseThenRetire(w, order, done);
      acts := [Leases(order)] + [Retires(done)];
    }

    /** Leases or retires, depending on how much of the window is already buffered. */
    method Load(desired: seq<nat>, buffered: int, blocked: bool, high: int) returns (ghost acts: seq<Action>, ghost m: nat)
      requires hasAnchor && Positive(foregroundPieces) && budget.used <= budget.limit
      requires !blocked ==> forall i :: i in desired ==> i in windowPins
      modifies this`active, budget
      ensures Does(old(World()), acts, World()) && LoadActs(old(World()), desired, buffered, blocked, high, acts, m)
    {
      m := 0;
      var work := Missing(desired);
      if high == 0 || buffered >= high || !work {
        ghost var w := World();
        ghost var done := CompleteActive();
        DoesOne(w, Retires(done));
        return [Retires(done)], 0;
      }
      if blocked {
        return [], 0;
      }
      acts, m := Lease(desired, buffered, high);
    }

    /** The contiguous resident bytes ahead of the cursor, within the window. */
    method Buffered() returns (buffered: int)
      requires hasAnchor ==> 0 <= anchor.fileStart && 0 <= anchor.cursor
      ensures if hasAnchor then RunAhead(World(), anchor, buffered) else buffered == 0
    {
      if !hasAnchor || anchor.pieceLength <= 0 {
        return 0;
      }
      var end := anchor.fileStart + anchor.fileSize;
      if anchor.torrentSize > 0 && end > anchor.torrentSize {
        end := anchor.torrentSize;
      }
      var limit := Min(PLAYBACK_WINDOW, end - (anchor.fileStart + anchor.cursor));
      if limit <= 0 {
        return 0;
      }
      buffered := cache.ContiguousRun(torrentKey, anchor.fileStart + anchor.cursor, anchor.pieceLength, limit, anchor.torrentSize);
    }

    /** Pins the window, then loads it. */
    method PinAndLoad(desired: seq<nat>, buffered: int)
      returns (ghost pin: Action, ghost u: P.World, ghost rest: seq<Action>, ghost pass: Pass)
      requires hasAnchor && Positive(foregroundPieces) && budget.used <= budget.limit
      modifies this`windowPins, this`refs, this`active, cache, budget
      ensures pin == Pins(desired, anchor.pieceLength, anchor.torrentSize) && u == Act(old(World()), pin) && Does(u, rest, World())
      ensures pass.buffered == buffered && Grants(old(World()), anchor, desired, pass.granted)
      ensures LoadActs(u, desired, buffered, pass.granted < |desired|, HighMark(anchor, desired, pass.granted), rest, pass.served)
    {
      var blocked, high; ghost var m, served;
      blocked, high, pin, m := Reserve(desired);
      u := World();
      rest, served := Load(desired, buffered, blocked, high);
      pass := Pass(buffered, m, served);
    }

    /** Whatever left the window is given back, exactly the window's pieces are pinned, in order, as far
        as the cache grants it, and what is missing of them is leased, in order, as far as the budget goes. */
    method PassOver() returns (ghost acts: seq<Action>, ghost pass: Pass)
      requires C.Linked(cache.State()) && Positive(foregroundPieces) && budget.used <= budget.limit
      requires hasAnchor ==> 0 <= anchor.fileStart && 0 <= anchor.cursor
      modifies this`windowPins, this`refs, this`active, cache, budget
      ensures Does(old(World()), acts, World()) && ReconcileActs(old(World()), closed || !hasAnchor, anchor, acts, pass)
    {
      pass := Pass(0, 0, 0);
      if closed || !hasAnchor {
        return [], pass;
      }
      var buffered := Buffered();
      var desired := DesiredPieces();
      acts, pass := Sweep(desired, buffered);
    }

    method Sweep(desired: seq<nat>, buffered: int) returns (ghost acts: seq<Action>, ghost pass: Pass)
      requires C.Linked(cache.State()) && Positive(foregroundPieces) && budget.used <= budget.limit && hasAnchor
      requires IsWindow(anchor, desired) && RunAhead(World(), anchor, buffered)
      modifies this`windowPins, this`refs, this`active, cache, budget
      ensures Does(old(World()), acts, World()) && ReconcileActs(old(World()), false, anchor, acts, pass)
    {
      ghost var w := World();
      ghost var prune := Prune(desired);
      ghost var v := World();
      ghost var pin, u, rest;
      pin, u, rest, pass := PinAndLoad(desired, buffered);
      acts := [prune, pin] + rest;
      PassActs(w, v, u, World(), anchor, prune, pin, rest, pass);
    }

    method ForgetCandidate(f: File)
      modifies this`candidate
      ensures candidate == if old(candidate).Some? && old(candidate).value.file == f then None else old(candidate)
    {
      if candidate.Some? && candidate.value.file == f {
        candidate := None;
      }
    }

    method RemoveReads(f: File) returns (ghost acts: seq<Action>)
      requires C.Linked(cache.State()) && Tickets(foreground, nextTicket)
      modifies this`foreground, this`foregroundPieces, this`refs, cache
      ensures C.Linked(cache.State()) && Does(old(World()), acts, World())
      ensures Playing() == old(Playing()).(tags := Others(old(Playing()).tags, f))
    {
      ghost var before := foreground;
      acts := RemoveTickets(Some(f));
      TagsOthers(before, foreground, f);
    }

    method DropFile(f: File) returns (ghost acts: seq<Action>)
      requires C.Linked(cache.State()) && Tickets(foreground, nextTicket) && !closed
      modifies this`foreground, this`foregroundPieces, this`refs, this`windowPins, this`active, this`hasAnchor,
               this`anchorConfirmed, this`consumed, this`candidate, this`generation, cache, budget
      ensures Does(old(World()), acts, World()) && Playing() == Released(old(Playing()), f)
    {
      ghost var w := World();
      acts := RemoveReads(f);
      ForgetCandidate(f);
      if hasAnchor && anchor.file == f {
        generation := generation + 1;
        acts := GiveUp(w, acts);
      }
    }

    /** Removes the tickets of one file, or of every file. */
    method RemoveTickets(f: Option<File>) returns (ghost acts: seq<Action>)
      requires C.Linked(cache.State()) && Tickets(foreground, nextTicket)
      modifies this`foreground, this`foregroundPieces, this`refs, cache
      ensures C.Linked(cache.State()) && Tickets(foreground, nextTicket) && Does(old(World()), acts, World())
      ensures forall id :: id in foreground <==> id in old(foreground) && f.Some? && old(foreground)[id].file != f.value
      ensures forall id :: id in foreground ==> foreground[id] == old(foreground)[id]
    {
      acts := [];
      var todo := foreground.Keys;
      while todo != {}
        invariant C.Linked(cache.State()) && Tickets(foreground, nextTicket) && Does(old(World()), acts, World())
        invariant forall id :: id in todo ==> id in foreground
        invariant forall id :: id in foreground <==>
          id in old(foreground) && (id in todo || (f.Some? && old(foreground)[id].file != f.value))
        invariant forall id :: id in foreground ==> foreground[id] == old(foreground)[id]
        decreases |todo|
      {
        var id :| id in todo;
        todo := todo - {id};
        if f.None? || foreground[id].file == f.value {
          ghost var v := World();
          ghost var leave := RemoveForeground(id);
          DoesOne(v, leave);
          DoesThen(old(World()), acts, v, [leave], World());
          acts := acts + [leave];
        }
      }
    }

    /** Unpins every referenced piece once, whatever its count. */
    method UnpinReferences() returns (ghost order: seq<nat>)
      requires C.Linked(cache.State())
      modifies cache
      ensures cache.State() == UnpinAll(old(cache.State()), torrentKey, order)
      ensures forall i :: i in order <==> i in refs
    {
      order := [];
      var todo := refs.Keys;
      while todo != {}
        invariant cache.State() == UnpinAll(old(cache.State()), torrentKey, order) && C.Linked(cache.State())
        invariant forall i :: i in refs <==> i in todo || i in order
        decreases |todo|
      {
        var i :| i in todo;
        todo := todo - {i};
        cache.Unpin(Key(torrentKey, i));
        assert (order + [i])[..|order|] == order;
        order := order + [i];
      }
    }

    method ClearTables()
      modifies this`closed, this`foreground, this`foregroundPieces, this`refs, this`windowPins, this`active
      ensures closed && foreground == map[] && foregroundPieces == map[] && refs == map[] && windowPins == active == {}
    {
      closed, foreground, foregroundPieces := true, map[], map[];
      refs, windowPins, active := map[], {}, {};
    }

    /** Refunds every lease and unpins every piece. */
    method ReturnAll() returns (ghost cancels: seq<nat>, ghost unpins: seq<nat>)
      requires C.Linked(cache.State())
      modifies this`active, cache, budget
      ensures Enabled(old(World()), Shuts(cancels, unpins)) && Playing() == old(Playing())
      ensures var v := CancelAll(old(World()), cancels);
        cache.State() == UnpinAll(v.cache, torrentKey, unpins) && budget.Value() == v.budget
    {
      cancels := CancelUnneeded({});
      unpins := UnpinReferences();
    }

    /** What shutdown does once every ticket has left. */
    method ShutDown() returns (ghost a: Action)
      requires C.Linked(cache.State())
      modifies this`closed, this`foreground, this`foregroundPieces, this`refs, this`windowPins, this`active, this`hasAnchor,
               this`anchorConfirmed, this`consumed, this`candidate, cache, budget
      ensures a.Shuts? && Enabled(old(World()), a) && World() == Act(old(World()), a)
      ensures Playing() == GivenUp(old(Playing())).(closed := true, tags := map[])
    {
      ghost var cancels, unpins;
      cancels, unpins := ReturnAll();
      CancelKeepsTorrent(old(World()), cancels);
      ClearTables();
      NoTags();
      ForgetAnchor();
      a := Shuts(cancels, unpins);
    }

    /** All of it happens under the coordinator's lock, so when the closed flag is set within it cannot
        be observed. */
    method ShutAll() returns (ghost acts: seq<Action>)
      requires C.Linked(cache.State()) && Tickets(foreground, nextTicket) && !closed
      modifies this`closed, this`foreground, this`foregroundPieces, this`refs, this`windowPins, this`active, this`hasAnchor,
               this`anchorConfirmed, this`consumed, this`candidate, cache, budget
      ensures Does(old(World()), acts, World()) && Playing() == L.Shut(old(Playing()))
    {
      ghost var w := World();
      ghost var leaves := RemoveTickets(None);
      ghost var v := World();
      ghost var shut := ShutDown();
      DoesOne(v, shut);
      acts := leaves + [shut];
      DoesThen(w, leaves, v, [shut], World());
    }

    // -------------------------------------------------------- the public operations

    /** What the operations rely on follows from validity. */
    lemma Ready() returns (w: P.World, p: Player)
      requires Valid()
      ensures w == World() && p == Playing() && Sound(w) && L.Inv(p)
      ensures C.Linked(cache.State()) && Tickets(foreground, nextTicket) && Spread(Playing())
      ensures Positive(foregroundPieces) && budget.used <= budget.limit
      ensures hasAnchor ==> 0 <= anchor.fileStart && 0 <= anchor.cursor
    {
      forall id | id in foreground ensures id <= nextTicket {
        assert id in Playing().tags;
      }
      InvSpread(Playing());
      w, p := World(), Playing();
    }

    /** An operation that moves the ledger by its acts and playback by its step leaves all in order. */
    lemma Concludes(w: P.World, p: Player, op: L.Op, acts: seq<Action>)
      requires Sound(w) && L.Inv(p) && Proper(op) && Does(w, acts, World()) && Playing() == L.Next(p, op)
      ensures Valid() && Onward(p, Playing(), op)
    {
      PerformSound(w, acts);
      L.NextInv(p, op);
    }

    /** A read begins. Only a coordinator without an anchor takes one; a held anchor stays put. */
    method BeginForeground(f: File, requestStart: int, requestEnd: int, wanted: seq<nat>)
      returns (id: Option<nat>, ghost acts: seq<Action>)
      requires Valid() && 0 <= f.offset && 0 <= requestStart && requestEnd <= f.size
      modifies this, cache, budget
      ensures Valid() && Does(old(World()), acts, World())
      ensures Playing() == Begun(old(Playing()), f, requestStart, requestEnd)
      ensures id == None <==> requestStart >= requestEnd || old(closed)
      ensures id.Some? ==> |acts| == 1 && acts[0].Joins? && acts[0].id == id.value && forall i :: i in acts[0].keys <==> i in wanted
    {
      if requestStart >= requestEnd || closed {
        return None, [];
      }
      ghost var w, p := Ready();
      var ticket; ghost var join;
      ticket, join := EnterRead(f, requestStart, wanted);
      id, acts := Some(ticket), [join];
      DoesOne(w, join);
      Concludes(w, p, L.Begin(f, requestStart, requestEnd), acts);
    }

    /** A read starts to wait for a piece. */
    method StartPiece(id: nat, i: nat)
      requires Valid()
      modifies this`active, this`foreground, this`foregroundPieces, budget
      ensures Valid() && World() == Act(old(World()), Starts(id, i)) && Playing() == old(Playing())
    {
      ghost var w, p := Ready();
      BeginWait(id, i);
      DoesOne(w, Starts(id, i));
      Concludes(w, p, L.StartPiece(id, i), [Starts(id, i)]);
    }

    method FinishPiece(id: nat, i: nat)
      requires Valid()
      modifies this`foreground, this`foregroundPieces
      ensures Valid() && World() == Act(old(World()), Ends(id, i)) && Playing() == old(Playing())
    {
      ghost var w, p := Ready();
      EndWait(id, i);
      DoesOne(w, Ends(id, i));
      Concludes(w, p, L.FinishPiece(id, i), [Ends(id, i)]);
    }

    /** A read ends: what it delivered counts for playback, and its ticket leaves. */
    method FinishForeground(id: nat, off: int, n: int, delivered: bool) returns (ghost acts: seq<Action>)
      requires Valid()
      modifies this, cache, budget
      ensures Valid() && Does(old(World()), acts, World())
      ensures Playing() == Finished(old(Playing()), id, off, n, delivered)
    {
      ghost var w, p := Ready();
      acts := EndRead(id, off, n, delivered);
      Concludes(w, p, L.Finish(id, off, n, delivered), acts);
    }

    /** One reconciliation pass: it prunes to exactly the window, pins exactly the window, and leases exactly
        what the window lacks, each as far as cache and budget allow. */
    method Reconcile() returns (ghost acts: seq<Action>, ghost pass: Pass)
      requires Valid()
      modifies this`windowPins, this`refs, this`active, cache, budget
      ensures Valid() && Does(old(World()), acts, World()) && Playing() == old(Playing())
      ensures ReconcileActs(old(World()), closed || !hasAnchor, anchor, acts, pass)
    {
      ghost var w, p := Ready();
      acts, pass := PassOver();
      Concludes(w, p, L.Reconcile, acts);
    }

    /** The last handle of a file is gone: its reads, its candidate and its anchor go with it. */
    method ReleaseFile(f: File) returns (ghost acts: seq<Action>)
      requires Valid()
      modifies this`foreground, this`foregroundPieces, this`refs, this`windowPins, this`active, this`hasAnchor,
               this`anchorConfirmed, this`consumed, this`candidate, this`generation, cache, budget
      ensures Valid() && Does(old(World()), acts, World()) && Playing() == Released(old(Playing()), f)
    {
      if closed {
        return [];
      }
      ghost var w, p := Ready();
      acts := DropFile(f);
      Concludes(w, p, L.Release(f), acts);
    }

    /** Shutdown: every ticket leaves, every lease is refunded, every piece is unpinned. */
    method Cleanup() returns (ghost acts: seq<Action>)
      requires Valid()
      modifies this`closed, this`foreground, this`foregroundPieces, this`refs, this`windowPins, this`active, this`hasAnchor,
               this`anchorConfirmed, this`consumed, this`candidate, cache, budget
      ensures Valid() && Does(old(World()), acts, World()) && Playing() == L.Shut(old(Playing())) && closed
    {
      if closed {
        return [];
      }
      ghost var w, p := Ready();
      acts := ShutAll();
      Concludes(w, p, L.Cleanup, acts);
    }
  }

  // ------------------------------------------------------------- what a pass does

  /** What a pass saw: the bytes buffered ahead, how many wanted pieces are pinned before the first
      refusal, and up to where the window was looked through for missing pieces. */
  datatype Pass = Pass(buffered: int, granted: nat, served: nat)

  predicate Resident(w: P.World, i: nat) {
    Key(w.ledger.torrent, i) in w.cache.items
  }

  /** Neither resident nor being fetched by anyone. */
  predicate Lacking(w: P.World, i: nat) {
    !Resident(w, i) && i !in w.ledger.pieces && i !in w.ledger.active
  }

  ghost predicate Lacks(w: P.World, wanted: seq<nat>) {
    exists i :: i in wanted && !Resident(w, i)
  }

  /** The cache refuses the wanted piece at `m`, and none before it. */
  ghost predicate Grants(w: P.World, a: Anchor, wanted: seq<nat>, m: nat) {
    && m <= |wanted| && !WindowSeq(w, wanted[..m], a.pieceLength, a.torrentSize).1
    && (m < |wanted| ==> WindowSeq(w, wanted[..m + 1], a.pieceLength, a.torrentSize).1)
  }

  /** How much may be buffered: what is left of the window in the file, or the bytes of the pieces
      pinned when the cache refused one. */
  ghost function HighMark(a: Anchor, wanted: seq<nat>, granted: nat): int
    requires granted <= |wanted|
  {
    var most := Max(Min(PLAYBACK_WINDOW, a.fileSize - a.cursor), 0);
    if granted < |wanted| then Min(most, Overlaps(a, wanted[..granted])) else most
  }

  /** Without a refusal the mark is what is left of the file, at most 32 MiB; a refusal lowers it to the bytes
      ahead in the pieces that were pinned before it, and never raises it. */
  lemma HighMarkMeans(a: Anchor, wanted: seq<nat>, granted: nat)
    requires granted <= |wanted| && 0 <= a.cursor <= a.fileSize
    ensures var whole := if a.fileSize - a.cursor <= 33554432 then a.fileSize - a.cursor else 33554432;
      && HighMark(a, wanted, |wanted|) == whole && HighMark(a, wanted, granted) <= whole
      && (granted < |wanted| && Overlaps(a, wanted[..granted]) <= whole ==> HighMark(a, wanted, granted) == Overlaps(a, wanted[..granted]))
  {
  }

  /** Within the window; and, where resident pieces have their nominal extent, exactly the bytes from
      the cursor to the first missing piece. */
  ghost predicate RunAhead(w: P.World, a: Anchor, buffered: int) {
    var (from, end) := WindowBytes(a);
    && 0 <= buffered && (buffered > 0 ==> 0 < a.pieceLength && from + buffered <= end)
    && (0 < a.pieceLength && Regular(w.cache.items, w.ledger.torrent, a.pieceLength, a.torrentSize) && end <= a.torrentSize ==>
          && (forall b :: from <= b < from + buffered ==> Key(w.ledger.torrent, b / a.pieceLength) in w.cache.items)
          && (from + buffered < end ==> Key(w.ledger.torrent, (from + buffered) / a.pieceLength) !in w.cache.items))
  }

  /** Among the first m wanted pieces, exactly the lacking ones are leased. */
  ghost predicate Leasing(w: P.World, wanted: seq<nat>, order: seq<nat>, m: nat) {
    && m <= |wanted| && C.NoDuplicates(order)
    && (forall i :: i in order <==> i in wanted[..m] && Lacking(w, i))
  }

  /** Either all that the window lacks is leased, or the budget was used up on its first pieces. */
  ghost predicate Fills(w: P.World, wanted: seq<nat>, order: seq<nat>, m: nat) {
    && Leasing(w, wanted, order, m) && w.budget.used + |order| <= w.budget.limit
    && (m < |wanted| ==>
          w.budget.used + |order| == w.budget.limit || |w.ledger.active| + |order| >= w.budget.limit)
  }

  lemma LeasingSnoc(w: P.World, wanted: seq<nat>, order: seq<nat>, k: nat, leased: bool)
    requires Leasing(w, wanted, order, k) && k < |wanted|
    requires leased <==> Lacking(w, wanted[k]) && wanted[k] !in order
    ensures Leasing(w, wanted, if leased then order + [wanted[k]] else order, k + 1)
  {
    assert wanted[..k + 1] == wanted[..k] + [wanted[k]];
  }

  lemma FillsEnabled(w: P.World, wanted: seq<nat>, order: seq<nat>, m: nat)
    requires Fills(w, wanted, order, m) && w.ledger.hasAnchor && forall i :: i in wanted ==> i in w.ledger.window
    ensures Enabled(w, Leases(order))
  {
  }

  /** The leases whose piece has arrived. */
  ghost predicate Arrived(w: P.World, order: seq<nat>) {
    forall i :: i in order <==> i in w.ledger.active && Resident(w, i)
  }

  ghost predicate LeaseActs(w: P.World, wanted: seq<nat>, acts: seq<Action>, m: nat) {
    && |acts| == 2 && acts[0].Leases? && Fills(w, wanted, acts[0].order, m)
    && acts[1].Retires? && Arrived(LeaseAll(w, acts[0].order), acts[1].order)
  }

  /** A full window only retires, a refused one waits, any other is filled. */
  ghost predicate LoadActs(w: P.World, wanted: seq<nat>, buffered: int, blocked: bool, high: int, acts: seq<Action>, m: nat) {
    if high == 0 || buffered >= high || !Lacks(w, wanted) then |acts| == 1 && acts[0].Retires? && Arrived(w, acts[0].order)
    else if blocked then acts == []
    else LeaseActs(w, wanted, acts, m)
  }

  /** A pass does nothing without an anchor; otherwise it prunes to exactly the window, pins it in order
      up to the first refusal, and loads it. */
  ghost predicate ReconcileActs(w: P.World, idle: bool, a: Anchor, acts: seq<Action>, pass: Pass) {
    if idle then acts == []
    else
      && |acts| >= 2 && acts[0].Prunes? && IsWindow(a, acts[0].wanted)
      && acts[1] == Pins(acts[0].wanted, a.pieceLength, a.torrentSize)
      && RunAhead(w, a, pass.buffered)
      && var wanted, v := acts[0].wanted, Act(w, acts[0]);
         && Grants(v, a, wanted, pass.granted)
         && LoadActs(Act(v, acts[1]), wanted, pass.buffered, pass.granted < |wanted|,
                     HighMark(a, wanted, pass.granted), acts[2..], pass.served)
  }

  lemma PassActs(w: P.World, v: P.World, u: P.World, x: P.World, a: Anchor, prune: Action, pin: Action, rest: seq<Action>,
                 pass: Pass)
    requires v == Act(w, prune) && u == Act(v, pin) && Does(u, rest, x) && prune.Prunes? && IsWindow(a, prune.wanted)
    requires pin == Pins(prune.wanted, a.pieceLength, a.torrentSize) && RunAhead(w, a, pass.buffered)
    requires Grants(v, a, prune.wanted, pass.granted)
    requires LoadActs(u, prune.wanted, pass.buffered, pass.granted < |prune.wanted|,
                      HighMark(a, prune.wanted, pass.granted), rest, pass.served)
    ensures Does(w, [prune, pin] + rest, x) && ReconcileActs(w, false, a, [prune, pin] + rest, pass)
  {
    DoesOne(w, prune);
    DoesOne(v, pin);
    DoesThen(w, [prune], v, [pin], u);
    assert [prune] + [pin] == [prune, pin];
    DoesThen(w, [prune, pin], u, rest, x);
    assert ([prune, pin] + rest)[2..] == rest;
  }

  /** Leasing what is lacking and retiring what has arrived leaves a piece served that was leased or
      was not lacking. */
  lemma LeasedServes(w: P.World, order: seq<nat>, done: seq<nat>, i: nat)
    requires P.Inv(w) && Enabled(w, Leases(order)) && Arrived(LeaseAll(w, order), done)
    requires i in order || !Lacking(w, i)
    ensures !Lacking(CancelAll(LeaseAll(w, order), done), i)
  {
    LeaseAllSteady(w, order);
    CancelAllCore(LeaseAll(w, order), done, {}, map[]);
  }

  lemma FillServes(w: P.World, wanted: seq<nat>, acts: seq<Action>, m: nat)
    requires P.Inv(w) && w.ledger.hasAnchor && (forall i :: i in wanted ==> i in w.ledger.window)
    requires LeaseActs(w, wanted, acts, m)
    ensures || (forall i :: i in wanted ==> !Lacking(Perform(w, acts), i))
            || Act(w, acts[0]).budget.used == w.budget.limit
  {
    var order, done := acts[0].order, acts[1].order;
    FillsEnabled(w, wanted, order, m);
    LeaseThenRetire(w, order, done);
    assert acts == [Leases(order)] + [Retires(done)];
    if m == |wanted| {
      assert wanted[..m] == wanted;
      forall i | i in wanted ensures !Lacking(Perform(w, acts), i) {
        LeasedServes(w, order, done, i);
      }
    } else {
      LeaseAllSteady(w, order);
    }
  }

  lemma RetireServes(w: P.World, wanted: seq<nat>, order: seq<nat>)
    requires P.Inv(w) && !Lacks(w, wanted)
    ensures forall i :: i in wanted ==> !Lacking(Perform(w, [Retires(order)]), i)
  {
    CancelAllCore(w, order, {}, map[]);
    DoesOne(w, Retires(order));
    forall i | i in wanted ensures Resident(w, i) {
    }
  }

  /** What loading comes to: afterwards nothing the window wants is lacking, or the budget was used up. */
  lemma LoadServes(w: P.World, wanted: seq<nat>, buffered: int, high: int, acts: seq<Action>, m: nat)
    requires P.Inv(w) && w.ledger.hasAnchor && (forall i :: i in wanted ==> i in w.ledger.window)
    requires 0 <= buffered < high && LoadActs(w, wanted, buffered, false, high, acts, m)
    ensures || (forall i :: i in wanted ==> !Lacking(Perform(w, acts), i))
            || (acts != [] && acts[0].Leases? && Act(w, acts[0]).budget.used == w.budget.limit)
  {
    if Lacks(w, wanted) {
      FillServes(w, wanted, acts, m);
    } else {
      RetireServes(w, wanted, acts[0].order);
      assert acts == [Retires(acts[0].order)];
    }
  }

  lemma PrunedAnchor(w: P.World, a: Action)
    requires P.Inv(w) && a.Prunes?
    ensures P.Inv(Act(w, a)) && Act(w, a).ledger.hasAnchor == w.ledger.hasAnchor
  {
    ActInv(w, a);
    if Enabled(w, a) {
      PruneSteady(w, a.unwinds, a.cancels, a.wanted);
    }
  }

  /** Without a refusal the whole window is pinned. */
  lemma PassPins(w: P.World, a: Anchor, prune: Action, pin: Action, granted: nat)
    requires P.Inv(w) && w.ledger.hasAnchor && prune.Prunes? && pin == Pins(prune.wanted, a.pieceLength, a.torrentSize)
    requires granted == |prune.wanted| && Grants(Act(w, prune), a, prune.wanted, granted)
    ensures var u := Act(Act(w, prune), pin);
      && P.Inv(u) && u.ledger.hasAnchor && u.budget.limit == w.budget.limit
      && (forall i :: i in prune.wanted ==> i in u.ledger.window)
  {
    var v := Act(w, prune);
    PrunedAnchor(w, prune);
    ActInv(w, prune);
    ActInv(v, pin);
    assert prune.wanted[..granted] == prune.wanted;
    WindowSeqCovers(v, prune.wanted, a.pieceLength, a.torrentSize);
  }

  /** A pass over a window that is neither refused nor full. */
  lemma PassServes(w: P.World, a: Anchor, acts: seq<Action>, pass: Pass)
    requires P.Inv(w) && w.ledger.hasAnchor && ReconcileActs(w, false, a, acts, pass)
    requires pass.granted == |acts[0].wanted| && pass.buffered < HighMark(a, acts[0].wanted, pass.granted)
    ensures || (forall i :: i in acts[0].wanted ==> !Lacking(Perform(w, acts), i))
            || (|acts| > 2 && acts[2].Leases? && Perform(w, acts[..3]).budget.used == w.budget.limit)
  {
    var wanted, rest := acts[0].wanted, acts[2..];
    var u := Act(Act(w, acts[0]), acts[1]);
    PassPins(w, a, acts[0], acts[1], pass.granted);
    LoadServes(u, wanted, pass.buffered, HighMark(a, wanted, pass.granted), rest, pass.served);
    PerformTail(w, acts);
    if rest != [] && rest[0].Leases? {
      PerformThird(w, acts);
    }
  }

  lemma PerformTail(w: P.World, acts: seq<Action>)
    requires 2 <= |acts|
    ensures Perform(w, acts) == Perform(Act(Act(w, acts[0]), acts[1]), acts[2..])
  {
    PerformSnoc(w, [], acts[0]);
    PerformSnoc(w, [acts[0]], acts[1]);
    assert [] + [acts[0]] == [acts[0]] && [acts[0]] + [acts[1]] == acts[..2];
    PerformConcat(w, acts[..2], acts[2..]);
    assert acts[..2] + acts[2..] == acts;
  }

  lemma PerformThird(w: P.World, acts: seq<Action>)
    requires 3 <= |acts|
    ensures Perform(w, acts[..3]) == Act(Act(Act(w, acts[0]), acts[1]), acts[2])
  {
    PerformTail(w, acts[..3]);
    assert acts[..3][2..] == [acts[2]];
    DoesOne(Act(Act(w, acts[0]), acts[1]), acts[2]);
  }

  ghost function Unanchored(w: P.World): P.World {
    w.(ledger := w.ledger.(hasAnchor := false))
  }

  lemma {:induction false} CancelKeepsTorrent(w: P.World, order: seq<nat>)
    ensures CancelAll(w, order).ledger.torrent == w.ledger.torrent
  {
    if order != [] {
      CancelKeepsTorrent(w, order[..|order| - 1]);
    }
  }

  lemma WindowSeqSnoc(w: P.World, wanted: seq<nat>, k: nat, pieceLength: int, torrentSize: int)
    requires k < |wanted|
    ensures var (v, blocked) := WindowSeq(w, wanted[..k], pieceLength, torrentSize);
      var (u, refused) := WindowSeq(w, wanted[..k + 1], pieceLength, torrentSize);
      if blocked then u == v && refused
      else if wanted[k] in v.ledger.window then u == v && !refused
      else (u, !refused) == P.Window(v, wanted[k], Size(pieceLength, torrentSize, wanted[k]))
  {
    assert wanted[..k + 1][..k] == wanted[..k];
  }

  /** After a refusal nothing more is pinned. */
  lemma {:induction false} WindowSeqStops(w: P.World, wanted: seq<nat>, k: nat, pieceLength: int, torrentSize: int)
    requires k <= |wanted| && WindowSeq(w, wanted[..k], pieceLength, torrentSize).1
    ensures WindowSeq(w, wanted, pieceLength, torrentSize) == WindowSeq(w, wanted[..k], pieceLength, torrentSize)
    decreases |wanted|
  {
    if k < |wanted| {
      assert wanted[..|wanted| - 1][..k] == wanted[..k];
      WindowSeqStops(w, wanted[..|wanted| - 1], k, pieceLength, torrentSize);
    } else {
      assert wanted[..k] == wanted;
    }
  }

  ghost function LeaseOne(w: P.World, i: nat): P.World {
    w.(ledger := w.ledger.(active := w.ledger.active + {i}), budget := w.budget.(used := w.budget.used + 1))
  }

  lemma LeaseSnoc(w: P.World, order: seq<nat>, i: nat)
    ensures LeaseAll(w, order + [i]) == LeaseOne(LeaseAll(w, order), i)
  {
    assert (order + [i])[..|order|] == order;
  }

  lemma LeaseThenRetire(w: P.World, order: seq<nat>, done: seq<nat>)
    requires Enabled(w, Leases(order))
    ensures Does(w, [Leases(order)] + [Retires(done)], CancelAll(LeaseAll(w, order), done))
  {
    DoesOne(w, Leases(order));
    DoesOne(LeaseAll(w, order), Retires(done));
    DoesThen(w, [Leases(order)], LeaseAll(w, order), [Retires(done)], CancelAll(LeaseAll(w, order), done));
  }

  ghost predicate Tickets(foreground: map<nat, Ticket>, nextTicket: nat) {
    forall id :: id in foreground ==> id <= nextTicket && Positive(foreground[id].active)
  }

  lemma NoTags()
    ensures Tags(map[]) == map[]
  {
  }

  lemma TagsInsert(foreground: map<nat, Ticket>, id: nat, t: Ticket)
    ensures Tags(foreground[id := t]) == Tags(foreground)[id := TagOf(t)]
  {
  }

  lemma TagsRemove(foreground: map<nat, Ticket>, id: nat)
    ensures Tags(foreground - {id}) == Tags(foreground) - {id}
  {
  }

  lemma TagsOthers(before: map<nat, Ticket>, after: map<nat, Ticket>, f: File)
    requires forall id :: id in after <==> id in before && before[id].file != f
    requires forall id :: id in after ==> after[id] == before[id]
    ensures Tags(after) == Others(Tags(before), f)
  {
  }

  /** Takes a ticket's waits off the shared counts, one at a time. */
  method ReleaseWaits(counts: map<nat, int>, waits: map<nat, int>) returns (pieces: map<nat, int>)
    requires Positive(waits)
    ensures pieces == Unwait(counts, waits)
  {
    pieces := counts;
    var left := waits.Keys;
    while left != {}
      invariant forall i :: i in left ==> i in waits
      invariant forall i :: i in pieces <==> i in counts && (i in left || i !in waits || counts[i] > waits[i])
      invariant forall i :: i in pieces ==> pieces[i] == counts[i] - (if i in left then 0 else Get(waits, i))
      decreases |left|
    {
      var i :| i in left;
      ghost var before := pieces;
      for n := 0 to waits[i]
        invariant forall j :: j != i ==> (j in pieces <==> j in before)
        invariant forall j :: j != i && j in pieces ==> pieces[j] == before[j]
        invariant i in pieces <==> i in before && (n == 0 || before[i] > n)
        invariant i in pieces ==> pieces[i] == before[i] - n
      {
        pieces := Down(pieces, i);
      }
      left := left - {i};
    }
  }

  /** Distinct indexes in order of first appearance. */
  method UniquePieceIndexes(indexes: seq<nat>) returns (out: seq<nat>)
    ensures C.NoDuplicates(out) && forall i :: i in out <==> i in indexes
  {
    out := [];
    for k := 0 to |indexes|
      invariant C.NoDuplicates(out) && forall i :: i in out <==> i in indexes[..k]
    {
      assert indexes[..k + 1] == indexes[..k] + [indexes[k]];
      if indexes[k] !in out {
        out := out + [indexes[k]];
      }
    }
    assert indexes[..|indexes|] == indexes;
  }
}
