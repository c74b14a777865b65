/** The ledger of one prefetch coordinator: who holds a reference on which piece, which pieces
    are leased from the session budget, and how both agree with the cache's pins. */
module PrefetchModel {
  import opened Types
  import opened Sums
  import C = CacheModel

  /** An open file of the torrent; `id` is its identity. */
  datatype File = File(id: nat, offset: int, size: nat, pieceLength: int, torrentSize: int)

  datatype Kind = CurrentWindow | ForegroundOnly | CandidateRead

  /** A foreground read: the pieces it holds references on, and how often it waits for each. */
  datatype Ticket = Ticket(generation: nat, file: File, kind: Kind, candidate: nat, pinned: set<nat>, active: map<nat, int>)

  datatype Ledger = Ledger(
    torrent: string,
    closed: bool,
    hasAnchor: bool,
    foreground: map<nat, Ticket>,
    pieces: map<nat, int>, // foregroundPieces
    refs: map<nat, int>,
    window: set<nat>,      // windowPins
    active: set<nat>)      // leased pieces

  datatype Budget = Budget(limit: int, used: int)

  // ------------------------------------------------------------------ references

  ghost function Holding(foreground: map<nat, Ticket>, i: nat): set<nat> {
    set id | id in foreground && i in foreground[id].pinned
  }

  function One(b: bool): int {
    if b then 1 else 0
  }

  /** Every reference is accounted for: the window's, each ticket's, and those in `loose`, which an
      operation in progress has taken but not yet attributed, or detached but not yet returned. */
  ghost predicate Counted(refs: map<nat, int>, window: set<nat>, foreground: map<nat, Ticket>, loose: set<nat>) {
    && (forall i: nat :: i in refs ==> refs[i] > 0)
    && (forall i: nat :: Get(refs, i) == One(i in window) + |Holding(foreground, i)| + One(i in loose))
  }

  /** The torrent's pins in the cache are exactly the pieces with a reference. */
  ghost predicate PinsMatch(torrent: string, refs: map<nat, int>, pinned: set<Key>) {
    forall i: nat :: Key(torrent, i) in pinned <==> i in refs
  }

  lemma HoldingInsert(foreground: map<nat, Ticket>, id: nat, t: Ticket, i: nat)
    requires id !in foreground
    ensures |Holding(foreground[id := t], i)| == |Holding(foreground, i)| + One(i in t.pinned)
  {
    if i in t.pinned {
      assert Holding(foreground[id := t], i) == Holding(foreground, i) + {id};
    } else {
      assert Holding(foreground[id := t], i) == Holding(foreground, i);
    }
  }

  /** Handing the loose references over to a new ticket. */
  lemma AttachCounted(refs: map<nat, int>, window: set<nat>, foreground: map<nat, Ticket>, id: nat, t: Ticket)
    requires id !in foreground && Counted(refs, window, foreground, t.pinned)
    ensures Counted(refs, window, foreground[id := t], {})
  {
    forall i ensures Get(refs, i) == One(i in window) + |Holding(foreground[id := t], i)| + One(i in {}) {
      HoldingInsert(foreground, id, t, i);
    }
  }

  /** Taking a ticket out leaves its references loose. */
  lemma DetachCounted(refs: map<nat, int>, window: set<nat>, foreground: map<nat, Ticket>, id: nat)
    requires id in foreground && Counted(refs, window, foreground, {})
    ensures Counted(refs, window, foreground - {id}, foreground[id].pinned)
  {
    var rest := foreground - {id};
    assert rest[id := foreground[id]] == foreground;
    forall i ensures Get(refs, i) == One(i in window) + |Holding(rest, i)| + One(i in foreground[id].pinned) {
      HoldingInsert(rest, id, foreground[id], i);
    }
  }

  /** A ticket may change anything but the references it holds. */
  lemma RetagCounted(refs: map<nat, int>, window: set<nat>, foreground: map<nat, Ticket>, id: nat, t: Ticket)
    requires id in foreground && t.pinned == foreground[id].pinned && Counted(refs, window, foreground, {})
    ensures Counted(refs, window, foreground[id := t], {})
  {
    forall i ensures |Holding(foreground[id := t], i)| == |Holding(foreground, i)| {
      assert Holding(foreground[id := t], i) == Holding(foreground, i);
    }
  }

  function Up(m: map<nat, int>, i: nat): map<nat, int> {
    m[i := Get(m, i) + 1]
  }

  function Down(m: map<nat, int>, i: nat): map<nat, int> {
    if Get(m, i) > 1 then m[i := m[i] - 1] else m - {i}
  }

  lemma UpCounted(refs: map<nat, int>, window: set<nat>, foreground: map<nat, Ticket>, loose: set<nat>, i: nat)
    requires Counted(refs, window, foreground, loose) && i !in loose
    ensures Counted(Up(refs, i), window, foreground, loose + {i})
  {
    var refs' := Up(refs, i);
    forall j ensures Get(refs', j) == One(j in window) + |Holding(foreground, j)| + One(j in loose + {i}) {
      assert Get(refs, j) == One(j in window) + |Holding(foreground, j)| + One(j in loose);
    }
  }

  lemma DownCounted(refs: map<nat, int>, window: set<nat>, foreground: map<nat, Ticket>, loose: set<nat>, i: nat)
    requires Counted(refs, window, foreground, loose) && i in loose
    ensures i in refs && Counted(Down(refs, i), window, foreground, loose - {i})
  {
    assert Get(refs, i) == One(i in window) + |Holding(foreground, i)| + 1;
    var refs' := Down(refs, i);
    forall j ensures Get(refs', j) == One(j in window) + |Holding(foreground, j)| + One(j in loose - {i}) {
      assert Get(refs, j) == One(j in window) + |Holding(foreground, j)| + One(j in loose);
    }
  }

  /** A reference moves between the window and `loose`. */
  lemma WindowCounted(refs: map<nat, int>, window: set<nat>, foreground: map<nat, Ticket>, i: nat)
    requires i !in window
    ensures Counted(refs, window, foreground, {i}) <==> Counted(refs, window + {i}, foreground, {})
  {
    assert forall j :: One(j in window) + One(j in {i}) == One(j in window + {i}) + One(j in {});
    if Counted(refs, window, foreground, {i}) {
      forall j ensures Get(refs, j) == One(j in window + {i}) + |Holding(foreground, j)| + One(j in {}) {
        assert Get(refs, j) == One(j in window) + |Holding(foreground, j)| + One(j in {i});
      }
    }
    if Counted(refs, window + {i}, foreground, {}) {
      forall j ensures Get(refs, j) == One(j in window) + |Holding(foreground, j)| + One(j in {i}) {
        assert Get(refs, j) == One(j in window + {i}) + |Holding(foreground, j)| + One(j in {});
      }
    }
  }

  // ------------------------------------------------------------ foreground pieces

  ghost function Loads(foreground: map<nat, Ticket>, i: nat): map<nat, int> {
    map id | id in foreground :: Get(foreground[id].active, i)
  }

  ghost predicate Positive(m: map<nat, int>) {
    forall i :: i in m ==> m[i] > 0
  }

  /** foregroundPieces adds up what every ticket waits for, plus `loose` of a detached ticket. */
  ghost predicate Waiting(pieces: map<nat, int>, foreground: map<nat, Ticket>, loose: map<nat, int>) {
    && Positive(pieces) && Positive(loose)
    && (forall id :: id in foreground ==> Positive(foreground[id].active))
    && (forall i: nat :: Get(pieces, i) == Sum(Loads(foreground, i)) + Get(loose, i))
  }

  lemma LoadsInsert(foreground: map<nat, Ticket>, id: nat, t: Ticket, i: nat)
    ensures Sum(Loads(foreground[id := t], i))
         == Sum(Loads(foreground, i)) - (if id in foreground then Get(foreground[id].active, i) else 0) + Get(t.active, i)
  {
    assert Loads(foreground[id := t], i) == Loads(foreground, i)[id := Get(t.active, i)];
    SumUpdate(Loads(foreground, i), id, Get(t.active, i));
  }

  lemma AttachWaiting(pieces: map<nat, int>, foreground: map<nat, Ticket>, id: nat, t: Ticket)
    requires id !in foreground && t.active == map[] && Waiting(pieces, foreground, map[])
    ensures Waiting(pieces, foreground[id := t], map[])
  {
    forall i ensures Get(pieces, i) == Sum(Loads(foreground[id := t], i)) + 0 {
      LoadsInsert(foreground, id, t, i);
    }
  }

  lemma DetachWaiting(pieces: map<nat, int>, foreground: map<nat, Ticket>, id: nat)
    requires id in foreground && Waiting(pieces, foreground, map[])
    ensures Waiting(pieces, foreground - {id}, foreground[id].active)
  {
    var rest, t := foreground - {id}, foreground[id];
    assert rest[id := t] == foreground;
    forall i ensures Get(pieces, i) == Sum(Loads(rest, i)) + Get(t.active, i) {
      LoadsInsert(rest, id, t, i);
    }
  }

  lemma StartWaiting(pieces: map<nat, int>, foreground: map<nat, Ticket>, id: nat, i: nat)
    requires id in foreground && Waiting(pieces, foreground, map[])
    ensures var t := foreground[id];
      Waiting(Up(pieces, i), foreground[id := t.(active := Up(t.active, i))], map[])
  {
    var t := foreground[id];
    var t' := t.(active := Up(t.active, i));
    var all := foreground[id := t'];
    LoadsNonNegative(pieces, foreground, i);
    forall j ensures Get(Up(pieces, i), j) == Sum(Loads(all, j)) + 0 {
      LoadsInsert(foreground, id, t', j);
      assert Get(pieces, j) == Sum(Loads(foreground, j)) + Get(map[], j);
    }
  }

  lemma LoadsNonNegative(pieces: map<nat, int>, foreground: map<nat, Ticket>, i: nat)
    requires Waiting(pieces, foreground, map[])
    ensures Get(pieces, i) >= 0 && forall id :: id in foreground ==> Get(foreground[id].active, i) >= 0
  {
  }

  lemma FinishWaiting(pieces: map<nat, int>, foreground: map<nat, Ticket>, id: nat, i: nat)
    requires id in foreground && i in foreground[id].active && Waiting(pieces, foreground, map[])
    ensures var t := foreground[id];
      Waiting(Down(pieces, i), foreground[id := t.(active := Down(t.active, i))], map[])
  {
    var t := foreground[id];
    var t' := t.(active := Down(t.active, i));
    var all := foreground[id := t'];
    SumRemove(Loads(foreground, i), id);
    SumNonNegative(Loads(foreground, i) - {id});
    forall j ensures Get(Down(pieces, i), j) == Sum(Loads(all, j)) + 0 {
      LoadsInsert(foreground, id, t', j);
      assert Get(pieces, j) == Sum(Loads(foreground, j)) + Get(map[], j);
    }
  }

  // ---------------------------------------------------- ledger, cache and budget

  datatype World = World(ledger: Ledger, cache: C.State, budget: Budget)

  ghost predicate Funded(w: World) {
    |w.ledger.active| <= w.budget.used <= w.budget.limit
  }

  /** Holds at every point of every operation; `loose` and `waits` are in transit. */
  ghost predicate Core(w: World, loose: set<nat>, waits: map<nat, int>) {
    && C.Inv(w.cache)
    && Counted(w.ledger.refs, w.ledger.window, w.ledger.foreground, loose)
    && PinsMatch(w.ledger.torrent, w.ledger.refs, w.cache.pinned)
    && Waiting(w.ledger.pieces, w.ledger.foreground, waits)
    && Funded(w)
  }

  /** Every leased piece is window-pinned and not being read; without an anchor there is neither a
      lease nor a window pin. */
  ghost predicate Leased(l: Ledger) {
    && (forall i :: i in l.active ==> i in l.window && i !in l.pieces)
    && (!l.hasAnchor ==> forall i :: i !in l.active && i !in l.window)
  }

  ghost predicate Steady(w: World) {
    Core(w, {}, map[]) && Leased(w.ledger)
  }

  /** Between operations; a closed coordinator has no anchor and no ticket left. */
  ghost predicate Inv(w: World) {
    Steady(w) && (w.ledger.closed ==> !w.ledger.hasAnchor && w.ledger.foreground == map[])
  }

  /** What one coordinator may do to what it shares: its leases and the budget move together, and
      other torrents' pins stay. */
  ghost predicate Moved(v: World, w: World) {
    && w.ledger.torrent == v.ledger.torrent && (v.ledger.closed ==> w.ledger.closed)
    && w.budget.limit == v.budget.limit
    && w.budget.used - v.budget.used == |w.ledger.active| - |v.ledger.active|
    && (forall k: Key :: k.torrent != v.ledger.torrent ==> (k in w.cache.pinned <==> k in v.cache.pinned))
  }

  /** Neither an anchor nor a ticket appears, and the closed flag stays. */
  ghost predicate Quieter(v: Ledger, w: Ledger) {
    && w.closed == v.closed && (w.hasAnchor ==> v.hasAnchor)
    && (forall id :: id in w.foreground ==> id in v.foreground)
  }

  function KeyOf(l: Ledger, i: nat): Key {
    Key(l.torrent, i)
  }

  /** The first reference pins the piece; a refused pin changes nothing. */
  function Retain(w: World, i: nat, size: int): (World, bool) {
    if Get(w.ledger.refs, i) == 0 then
      var (cache, ok) := C.PinSize(w.cache, KeyOf(w.ledger, i), size);
      if !ok then (w.(cache := cache), false)
      else (w.(cache := cache, ledger := w.ledger.(refs := Up(w.ledger.refs, i))), true)
    else (w.(ledger := w.ledger.(refs := Up(w.ledger.refs, i))), true)
  }

  /** The last reference unpins it. */
  function Release(w: World, i: nat): World {
    if Get(w.ledger.refs, i) <= 0 then w
    else
      var refs := Down(w.ledger.refs, i);
      w.(ledger := w.ledger.(refs := refs),
         cache := if i in refs then w.cache else C.Unpin(w.cache, KeyOf(w.ledger, i)))
  }

  function Refund(b: Budget): Budget {
    if b.used > 0 then b.(used := b.used - 1) else b
  }

  function Cancel(w: World, i: nat): World {
    if i !in w.ledger.active then w
    else w.(ledger := w.ledger.(active := w.ledger.active - {i}), budget := Refund(w.budget))
  }

  lemma RetainCore(w: World, loose: set<nat>, waits: map<nat, int>, i: nat, size: int)
    requires Core(w, loose, waits) && i !in loose
    ensures var (v, ok) := Retain(w, i, size);
      && Moved(w, v) && (!ok ==> v == w) && v == w.(cache := v.cache, ledger := w.ledger.(refs := v.ledger.refs))
      && (ok ==> Core(v, loose + {i}, waits))
  {
    var (v, ok) := Retain(w, i, size);
    UpCounted(w.ledger.refs, w.ledger.window, w.ledger.foreground, loose, i);
    if Get(w.ledger.refs, i) == 0 && size >= 0 {
      C.PinInv(w.cache, KeyOf(w.ledger, i), size, true);
      C.PinEffect(w.cache, KeyOf(w.ledger, i), size, true);
    }
  }

  lemma ReleaseCore(w: World, loose: set<nat>, waits: map<nat, int>, i: nat)
    requires Core(w, loose, waits) && i in loose
    ensures var v := Release(w, i);
      && Moved(w, v) && v == w.(cache := v.cache, ledger := w.ledger.(refs := v.ledger.refs))
      && Core(v, loose - {i}, waits)
  {
    DownCounted(w.ledger.refs, w.ledger.window, w.ledger.foreground, loose, i);
    C.UnpinInv(w.cache, KeyOf(w.ledger, i));
  }

  lemma CancelCore(w: World, loose: set<nat>, waits: map<nat, int>, i: nat)
    requires Core(w, loose, waits)
    ensures Moved(w, Cancel(w, i)) && Core(Cancel(w, i), loose, waits)
  {
  }

  /** A window pin is taken out of the window and its reference returned. */
  function Unwindow(w: World, i: nat): World {
    Release(w.(ledger := w.ledger.(window := w.ledger.window - {i})), i)
  }

  lemma UnwindowCore(w: World, i: nat)
    requires Core(w, {}, map[]) && i in w.ledger.window
    ensures Core(Unwindow(w, i), {}, map[]) && Moved(w, Unwindow(w, i))
    ensures Unwindow(w, i).ledger == w.ledger.(window := w.ledger.window - {i}, refs := Unwindow(w, i).ledger.refs)
  {
    var out := w.(ledger := w.ledger.(window := w.ledger.window - {i}));
    assert out.ledger.window + {i} == w.ledger.window;
    WindowCounted(w.ledger.refs, out.ledger.window, w.ledger.foreground, i);
    ReleaseCore(out, {i}, map[], i);
    assert {i} - {i} == {};
  }

  /** A piece joins the window when its reference is granted. */
  function Window(w: World, i: nat, size: int): (World, bool) {
    var (v, ok) := Retain(w, i, size);
    if ok then (v.(ledger := v.ledger.(window := v.ledger.window + {i})), true) else (v, false)
  }

  lemma WindowJoins(w: World, i: nat)
    requires Core(w, {i}, map[]) && i !in w.ledger.window
    ensures var v := w.(ledger := w.ledger.(window := w.ledger.window + {i})); Core(v, {}, map[]) && Moved(w, v)
  {
    WindowCounted(w.ledger.refs, w.ledger.window, w.ledger.foreground, i);
  }

  lemma WindowCore(w: World, i: nat, size: int)
    requires Core(w, {}, map[]) && i !in w.ledger.window
    ensures Core(Window(w, i, size).0, {}, map[]) && Moved(w, Window(w, i, size).0)
    ensures var v := Window(w, i, size).0;
      v.ledger == w.ledger.(window := v.ledger.window, refs := v.ledger.refs)
      && v.ledger.window == if Window(w, i, size).1 then w.ledger.window + {i} else w.ledger.window
  {
    RetainCore(w, {}, map[], i, size);
    var (v, ok) := Retain(w, i, size);
    if ok {
      assert {} + {i} == {i};
      WindowJoins(v, i);
    }
  }

  // ------------------------------------------------------- passes over many pieces

  /** Window pins given back in the order the pass happens to visit them. */
  function UnwindowAll(w: World, order: seq<nat>): World {
    if order == [] then w else Unwindow(UnwindowAll(w, order[..|order| - 1]), order[|order| - 1])
  }

  function CancelAll(w: World, order: seq<nat>): World {
    if order == [] then w else Cancel(CancelAll(w, order[..|order| - 1]), order[|order| - 1])
  }

  lemma MovedTrans(u: World, v: World, w: World)
    requires Moved(u, v) && Moved(v, w)
    ensures Moved(u, w)
  {
  }

  lemma {:induction false} UnwindowAllCore(w: World, order: seq<nat>)
    requires Core(w, {}, map[]) && C.NoDuplicates(order)
    requires forall i :: i in order ==> i in w.ledger.window
    ensures var v := UnwindowAll(w, order);
      && Core(v, {}, map[]) && Moved(w, v)
      && v.ledger == w.ledger.(window := v.ledger.window, refs := v.ledger.refs)
      && (forall i :: i in v.ledger.window <==> i in w.ledger.window && i !in order)
  {
    if order != [] {
      var front, i := order[..|order| - 1], order[|order| - 1];
      assert order == front + [i];
      assert forall j :: j in order <==> j in front || j == i;
      UnwindowAllCore(w, front);
      UnwindowCore(UnwindowAll(w, front), i);
      MovedTrans(w, UnwindowAll(w, front), UnwindowAll(w, order));
    }
  }

  lemma {:induction false} CancelAllCore(w: World, order: seq<nat>, loose: set<nat>, waits: map<nat, int>)
    requires Core(w, loose, waits)
    ensures var v := CancelAll(w, order);
      && Core(v, loose, waits) && Moved(w, v)
      && v == w.(ledger := w.ledger.(active := v.ledger.active), budget := v.budget)
      && (forall i :: i in v.ledger.active <==> i in w.ledger.active && i !in order)
  {
    if order != [] {
      var front, i := order[..|order| - 1], order[|order| - 1];
      assert order == front + [i];
      assert forall j :: j in order <==> j in front || j == i;
      CancelAllCore(w, front, loose, waits);
      CancelCore(CancelAll(w, front), loose, waits, i);
      MovedTrans(w, CancelAll(w, front), CancelAll(w, order));
    }
  }

  // ----------------------------------------------------------------- operations

  /** The window is emptied; the anchor stays. */
  function Abandon(w: World, unwinds: seq<nat>, cancels: seq<nat>): World {
    CancelAll(UnwindowAll(w, unwinds), cancels)
  }

  /** The anchor is given up together with its leases and window pins. */
  function DropAnchor(w: World, cancels: seq<nat>, unwinds: seq<nat>): World {
    var v := UnwindowAll(CancelAll(w, cancels), unwinds);
    v.(ledger := v.ledger.(hasAnchor := false))
  }

  lemma AbandonSteady(w: World, unwinds: seq<nat>, cancels: seq<nat>)
    requires Steady(w) && C.NoDuplicates(unwinds)
    requires forall i :: i in unwinds <==> i in w.ledger.window
    requires forall i :: i in w.ledger.active ==> i in cancels
    ensures Steady(Abandon(w, unwinds, cancels)) && Moved(w, Abandon(w, unwinds, cancels))
    ensures Quieter(w.ledger, Abandon(w, unwinds, cancels).ledger)
  {
    UnwindowAllCore(w, unwinds);
    CancelAllCore(UnwindowAll(w, unwinds), cancels, {}, map[]);
    MovedTrans(w, UnwindowAll(w, unwinds), Abandon(w, unwinds, cancels));
  }

  lemma DropAnchorSteady(w: World, cancels: seq<nat>, unwinds: seq<nat>)
    requires Steady(w) && C.NoDuplicates(unwinds)
    requires forall i :: i in unwinds <==> i in w.ledger.window
    requires forall i :: i in w.ledger.active ==> i in cancels
    ensures Steady(DropAnchor(w, cancels, unwinds)) && Moved(w, DropAnchor(w, cancels, unwinds))
    ensures Quieter(w.ledger, DropAnchor(w, cancels, unwinds).ledger)
  {
    CancelAllCore(w, cancels, {}, map[]);
    UnwindowAllCore(CancelAll(w, cancels), unwinds);
    MovedTrans(w, CancelAll(w, cancels), UnwindowAll(CancelAll(w, cancels), unwinds));
  }

  function ReleaseAll(w: World, order: seq<nat>): World {
    if order == [] then w else Release(ReleaseAll(w, order[..|order| - 1]), order[|order| - 1])
  }

  lemma LooseLeft(loose: set<nat>, front: seq<nat>, i: nat, order: seq<nat>)
    requires order == front + [i] && C.NoDuplicates(order) && forall j :: j in order ==> j in loose
    ensures loose - C.Elements(front) - {i} == loose - C.Elements(order) && i in loose - C.Elements(front)
    ensures C.NoDuplicates(front) && forall j :: j in front ==> j in loose
  {
    assert order[|front|] == i && forall k :: 0 <= k < |front| ==> order[k] == front[k];
    assert forall j :: j in order <==> j in front || j == i;
  }

  lemma {:induction false} ReleaseAllCore(w: World, order: seq<nat>, loose: set<nat>)
    requires Core(w, loose, map[]) && C.NoDuplicates(order) && forall i :: i in order ==> i in loose
    ensures var v := ReleaseAll(w, order);
      && Core(v, loose - C.Elements(order), map[]) && Moved(w, v)
      && v.ledger == w.ledger.(refs := v.ledger.refs)
  {
    if order == [] {
      assert loose - C.Elements(order) == loose;
    } else {
      var front, i := order[..|order| - 1], order[|order| - 1];
      LooseLeft(loose, front, i, order);
      ReleaseAllCore(w, front, loose);
      ReleaseCore(ReleaseAll(w, front), loose - C.Elements(front), map[], i);
      MovedTrans(w, ReleaseAll(w, front), ReleaseAll(w, order));
    }
  }

  /** What is still waited for once a ticket's waits are taken off. */
  function Unwait(pieces: map<nat, int>, waits: map<nat, int>): map<nat, int> {
    map i | i in pieces && (i !in waits || pieces[i] > waits[i]) :: pieces[i] - Get(waits, i)
  }

  lemma UnwaitWaiting(pieces: map<nat, int>, foreground: map<nat, Ticket>, waits: map<nat, int>)
    requires Waiting(pieces, foreground, waits)
    ensures Waiting(Unwait(pieces, waits), foreground, map[])
    ensures forall i :: i in Unwait(pieces, waits) ==> i in pieces
  {
    forall i: nat ensures Get(Unwait(pieces, waits), i) == Sum(Loads(foreground, i)) + 0 {
      SumNonNegative(Loads(foreground, i));
      assert Get(pieces, i) == Sum(Loads(foreground, i)) + Get(waits, i);
    }
  }

  /** A ticket leaves: its waits and its references go with it. */
  function Leave(w: World, id: nat, order: seq<nat>): World
    requires id in w.ledger.foreground
  {
    var t := w.ledger.foreground[id];
    ReleaseAll(w.(ledger := w.ledger.(foreground := w.ledger.foreground - {id},
                                      pieces := Unwait(w.ledger.pieces, t.active))), order)
  }

  lemma LeaveSteady(w: World, id: nat, order: seq<nat>)
    requires Steady(w) && id in w.ledger.foreground && C.NoDuplicates(order)
    requires forall i :: i in order <==> i in w.ledger.foreground[id].pinned
    ensures Steady(Leave(w, id, order)) && Moved(w, Leave(w, id, order))
    ensures Quieter(w.ledger, Leave(w, id, order).ledger)
  {
    var t := w.ledger.foreground[id];
    var rest := w.ledger.foreground - {id};
    DetachCounted(w.ledger.refs, w.ledger.window, w.ledger.foreground, id);
    DetachWaiting(w.ledger.pieces, w.ledger.foreground, id);
    UnwaitWaiting(w.ledger.pieces, rest, t.active);
    var v := w.(ledger := w.ledger.(foreground := rest, pieces := Unwait(w.ledger.pieces, t.active)));
    assert Core(v, t.pinned, map[]);
    ReleaseAllCore(v, order, t.pinned);
    assert t.pinned - C.Elements(order) == {};
  }

  // ---- a read begins

  function Size(pieceLength: int, torrentSize: int, i: nat): int {
    if pieceLength <= 0 then 0
    else if torrentSize - i * pieceLength < pieceLength then torrentSize - i * pieceLength
    else pieceLength
  }

  /** Takes a reference on each key in turn and collects the keys that were granted. */
  function RetainSeq(w: World, keys: seq<nat>, pieceLength: int, torrentSize: int): (World, set<nat>) {
    if keys == [] then (w, {})
    else
      var (v, granted) := RetainSeq(w, keys[..|keys| - 1], pieceLength, torrentSize);
      var i := keys[|keys| - 1];
      var (u, ok) := Retain(v, i, Size(pieceLength, torrentSize, i));
      (u, if ok then granted + {i} else granted)
  }

  lemma {:induction false} RetainSeqCore(w: World, keys: seq<nat>, pieceLength: int, torrentSize: int)
    requires Core(w, {}, map[]) && C.NoDuplicates(keys)
    ensures var (v, granted) := RetainSeq(w, keys, pieceLength, torrentSize);
      && Core(v, granted, map[]) && Moved(w, v) && v.ledger == w.ledger.(refs := v.ledger.refs)
      && v.budget == w.budget && (forall i :: i in granted ==> i in keys)
  {
    if keys != [] {
      var front, i := keys[..|keys| - 1], keys[|keys| - 1];
      assert keys == front + [i];
      RetainSeqCore(w, front, pieceLength, torrentSize);
      var (v, granted) := RetainSeq(w, front, pieceLength, torrentSize);
      RetainCore(v, granted, map[], i, Size(pieceLength, torrentSize, i));
      MovedTrans(w, v, RetainSeq(w, keys, pieceLength, torrentSize).0);
    }
  }

  /** A ticket joins with the references it was granted, and takes over leased pieces. */
  function Enter(w: World, id: nat, t: Ticket, keys: seq<nat>, pieceLength: int, torrentSize: int): World {
    var (v, granted) := RetainSeq(w.(ledger := w.ledger.(hasAnchor := true)), keys, pieceLength, torrentSize);
    CancelAll(v.(ledger := v.ledger.(foreground := v.ledger.foreground[id := t.(pinned := granted, active := map[])])), keys)
  }

  lemma EnterSteady(w: World, id: nat, t: Ticket, keys: seq<nat>, pieceLength: int, torrentSize: int)
    requires Steady(w) && C.NoDuplicates(keys) && id !in w.ledger.foreground
    ensures Steady(Enter(w, id, t, keys, pieceLength, torrentSize))
    ensures Moved(w, Enter(w, id, t, keys, pieceLength, torrentSize))
    ensures Enter(w, id, t, keys, pieceLength, torrentSize).ledger.closed == w.ledger.closed
  {
    var a := w.(ledger := w.ledger.(hasAnchor := true));
    RetainSeqCore(a, keys, pieceLength, torrentSize);
    var (v, granted) := RetainSeq(a, keys, pieceLength, torrentSize);
    var t' := t.(pinned := granted, active := map[]);
    var u := v.(ledger := v.ledger.(foreground := v.ledger.foreground[id := t']));
    AttachCounted(v.ledger.refs, v.ledger.window, v.ledger.foreground, id, t');
    AttachWaiting(v.ledger.pieces, v.ledger.foreground, id, t');
    CancelAllCore(u, keys, {}, map[]);
    MovedTrans(w, u, CancelAll(u, keys));
  }

  /** A ticket changes what it means for playback, not what it holds. */
  function Retag(w: World, id: nat, t: Ticket): World {
    w.(ledger := w.ledger.(foreground := w.ledger.foreground[id := t]))
  }

  lemma RetagSteady(w: World, id: nat, t: Ticket)
    requires Steady(w) && id in w.ledger.foreground
    requires t.pinned == w.ledger.foreground[id].pinned && t.active == w.ledger.foreground[id].active
    ensures Steady(Retag(w, id, t)) && Moved(w, Retag(w, id, t)) && Quieter(w.ledger, Retag(w, id, t).ledger)
  {
    var all := w.ledger.foreground[id := t];
    RetagCounted(w.ledger.refs, w.ledger.window, w.ledger.foreground, id, t);
    forall i: nat ensures Sum(Loads(all, i)) == Sum(Loads(w.ledger.foreground, i)) {
      LoadsInsert(w.ledger.foreground, id, t, i);
    }
  }

  // ---- a read waits for a piece

  function StartWait(w: World, id: nat, i: nat): World
    requires id in w.ledger.foreground
  {
    var v := Cancel(w, i);
    var t := w.ledger.foreground[id];
    v.(ledger := v.ledger.(foreground := v.ledger.foreground[id := t.(active := Up(t.active, i))],
                           pieces := Up(v.ledger.pieces, i)))
  }

  lemma StartWaitSteady(w: World, id: nat, i: nat)
    requires Steady(w) && id in w.ledger.foreground
    ensures Steady(StartWait(w, id, i)) && Moved(w, StartWait(w, id, i))
    ensures Quieter(w.ledger, StartWait(w, id, i).ledger)
  {
    var t := w.ledger.foreground[id];
    CancelCore(w, {}, map[], i);
    StartWaiting(w.ledger.pieces, w.ledger.foreground, id, i);
    RetagCounted(w.ledger.refs, w.ledger.window, w.ledger.foreground, id, t.(active := Up(t.active, i)));
  }

  function EndWait(w: World, id: nat, i: nat): World
    requires id in w.ledger.foreground
  {
    var t := w.ledger.foreground[id];
    if i !in t.active then w
    else w.(ledger := w.ledger.(foreground := w.ledger.foreground[id := t.(active := Down(t.active, i))],
                                pieces := Down(w.ledger.pieces, i)))
  }

  lemma EndWaitSteady(w: World, id: nat, i: nat)
    requires Steady(w) && id in w.ledger.foreground
    ensures Steady(EndWait(w, id, i)) && Moved(w, EndWait(w, id, i))
    ensures Quieter(w.ledger, EndWait(w, id, i).ledger)
  {
    var t := w.ledger.foreground[id];
    if i in t.active {
      FinishWaiting(w.ledger.pieces, w.ledger.foreground, id, i);
      RetagCounted(w.ledger.refs, w.ledger.window, w.ledger.foreground, id, t.(active := Down(t.active, i)));
    }
  }

  // ---- reconciliation

  /** Pins the wanted pieces in order and stops at the first refusal. */
  function WindowSeq(w: World, wanted: seq<nat>, pieceLength: int, torrentSize: int): (World, bool) {
    if wanted == [] then (w, false)
    else
      var (v, blocked) := WindowSeq(w, wanted[..|wanted| - 1], pieceLength, torrentSize);
      var i := wanted[|wanted| - 1];
      if blocked || i in v.ledger.window then (v, blocked)
      else
        var (u, ok) := Window(v, i, Size(pieceLength, torrentSize, i));
        (u, !ok)
  }

  /** Without a refusal every wanted piece ends up in the window. */
  lemma {:induction false} WindowSeqCovers(w: World, wanted: seq<nat>, pieceLength: int, torrentSize: int)
    ensures var (v, blocked) := WindowSeq(w, wanted, pieceLength, torrentSize);
      && v.ledger == w.ledger.(window := v.ledger.window, refs := v.ledger.refs) && v.budget == w.budget
      && (!blocked ==> forall i :: i in wanted ==> i in v.ledger.window)
  {
    if wanted != [] {
      var front, i := wanted[..|wanted| - 1], wanted[|wanted| - 1];
      assert wanted == front + [i];
      WindowSeqCovers(w, front, pieceLength, torrentSize);
    }
  }

  lemma {:induction false} WindowSeqSteady(w: World, wanted: seq<nat>, pieceLength: int, torrentSize: int)
    requires Steady(w) && w.ledger.hasAnchor
    ensures var (v, blocked) := WindowSeq(w, wanted, pieceLength, torrentSize);
      && Steady(v) && Moved(w, v)
      && v.ledger == w.ledger.(window := v.ledger.window, refs := v.ledger.refs)
      && (!blocked ==> forall i :: i in wanted ==> i in v.ledger.window)
  {
    if wanted != [] {
      var front, i := wanted[..|wanted| - 1], wanted[|wanted| - 1];
      assert wanted == front + [i];
      WindowSeqSteady(w, front, pieceLength, torrentSize);
      var (v, blocked) := WindowSeq(w, front, pieceLength, torrentSize);
      if !blocked && i !in v.ledger.window {
        WindowCore(v, i, Size(pieceLength, torrentSize, i));
        MovedTrans(w, v, WindowSeq(w, wanted, pieceLength, torrentSize).0);
      }
    }
  }

  function LeaseAll(w: World, order: seq<nat>): World {
    if order == [] then w
    else
      var v := LeaseAll(w, order[..|order| - 1]);
      v.(ledger := v.ledger.(active := v.ledger.active + {order[|order| - 1]}), budget := v.budget.(used := v.budget.used + 1))
  }

  lemma {:induction false} LeaseAllSteady(w: World, order: seq<nat>)
    requires Steady(w) && w.ledger.hasAnchor && C.NoDuplicates(order) && w.budget.used + |order| <= w.budget.limit
    requires forall i :: i in order ==> i in w.ledger.window && i !in w.ledger.pieces && i !in w.ledger.active
    ensures var v := LeaseAll(w, order);
      && Steady(v) && Moved(w, v) && v.budget.used == w.budget.used + |order|
      && v == w.(ledger := w.ledger.(active := v.ledger.active), budget := v.budget)
      && (forall i :: i in v.ledger.active <==> i in w.ledger.active || i in order)
  {
    if order != [] {
      var front, i := order[..|order| - 1], order[|order| - 1];
      assert order == front + [i];
      LeaseAllSteady(w, front);
      assert |LeaseAll(w, order).ledger.active| == |LeaseAll(w, front).ledger.active| + 1;
    }
  }

  /** Pruning: pins and leases outside the wanted pieces go, and leases on pieces being read. */
  lemma PruneSteady(w: World, unwinds: seq<nat>, cancels: seq<nat>, wanted: seq<nat>)
    requires Steady(w) && C.NoDuplicates(unwinds)
    requires forall i :: i in unwinds <==> i in w.ledger.window && i !in wanted
    requires forall i :: i in w.ledger.active && (i !in wanted || i in w.ledger.pieces) ==> i in cancels
    ensures var v := CancelAll(UnwindowAll(w, unwinds), cancels);
      Steady(v) && Moved(w, v) && v.ledger.hasAnchor == w.ledger.hasAnchor && v.ledger.pieces == w.ledger.pieces
      && v.ledger.closed == w.ledger.closed && v.ledger.foreground == w.ledger.foreground
  {
    UnwindowAllCore(w, unwinds);
    CancelAllCore(UnwindowAll(w, unwinds), cancels, {}, map[]);
    MovedTrans(w, UnwindowAll(w, unwinds), CancelAll(UnwindowAll(w, unwinds), cancels));
  }

  lemma CancelAllSteady(w: World, order: seq<nat>)
    requires Steady(w)
    ensures Steady(CancelAll(w, order)) && Moved(w, CancelAll(w, order))
    ensures Quieter(w.ledger, CancelAll(w, order).ledger)
  {
    CancelAllCore(w, order, {}, map[]);
  }

  // ---- shutdown

  function UnpinAll(cache: C.State, torrent: string, order: seq<nat>): C.State {
    if order == [] then cache
    else C.Unpin(UnpinAll(cache, torrent, order[..|order| - 1]), Key(torrent, order[|order| - 1]))
  }

  lemma {:induction false} UnpinAllInv(cache: C.State, torrent: string, order: seq<nat>)
    requires C.Inv(cache)
    ensures var c := UnpinAll(cache, torrent, order);
      && C.Inv(c)
      && (forall k :: k in c.pinned <==> k in cache.pinned && !(k.torrent == torrent && k.piece >= 0 && k.piece in order))
  {
    if order != [] {
      var front, i := order[..|order| - 1], order[|order| - 1];
      assert order == front + [i];
      UnpinAllInv(cache, torrent, front);
      C.UnpinInv(UnpinAll(cache, torrent, front), Key(torrent, i));
    }
  }

  /** Once every ticket has left: leases are refunded, every reference is unpinned, all is empty. */
  function Shut(w: World, cancels: seq<nat>, unpins: seq<nat>): World {
    var v := CancelAll(w, cancels);
    World(Ledger(v.ledger.torrent, true, false, map[], map[], map[], {}, {}),
          UnpinAll(v.cache, v.ledger.torrent, unpins), v.budget)
  }

  lemma EmptyInv(torrent: string, closed: bool, cache: C.State, budget: Budget)
    requires C.Inv(cache) && 0 <= budget.used <= budget.limit && forall i: nat :: Key(torrent, i) !in cache.pinned
    ensures Inv(World(Ledger(torrent, closed, false, map[], map[], map[], {}, {}), cache, budget))
  {
    forall i: nat ensures |Holding(map[], i)| == 0 && Sum(Loads(map[], i)) == 0 {
      assert Holding(map[], i) == {} && Loads(map[], i) == map[];
    }
  }

  lemma ShutInv(w: World, cancels: seq<nat>, unpins: seq<nat>)
    requires Steady(w) && (forall i :: i in w.ledger.active ==> i in cancels)
    requires forall i :: i in w.ledger.refs ==> i in unpins
    ensures var v := Shut(w, cancels, unpins);
      Inv(v) && Moved(w, v) && forall i: nat :: Key(v.ledger.torrent, i) !in v.cache.pinned
  {
    CancelAllCore(w, cancels, {}, map[]);
    var u, v := CancelAll(w, cancels), Shut(w, cancels, unpins);
    UnpinAllInv(u.cache, u.ledger.torrent, unpins);
    assert u.ledger.active == {};
    EmptyInv(u.ledger.torrent, true, v.cache, v.budget);
  }

  /** A closed coordinator holds no lease, no reference and no pin. */
  lemma ClosedHoldsNothing(w: World)
    requires Inv(w) && w.ledger.closed
    ensures w.ledger.active == {} && forall i: nat :: Key(w.ledger.torrent, i) !in w.cache.pinned
  {
    forall i: nat ensures i !in w.ledger.refs {
      assert Get(w.ledger.refs, i) == One(i in w.ledger.window) + |Holding(w.ledger.foreground, i)| + One(i in {});
      assert Holding(w.ledger.foreground, i) == {};
    }
  }
}
