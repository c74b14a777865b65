/** Optimistic publication of per-hash snapshots, fenced by slot identity. */
module SnapshotModel {
  import opened Types

  /** `id` is the slot object's identity, `current` the identity of the value it holds. */
  datatype Slot = Slot(id: nat, current: Option<nat>)

  /** What a read saw before it went to the backend: the slot and its value, or no slot. */
  datatype Observation = Observation(slot: Option<Slot>, listing: Option<nat>)

  /** A library read in progress. */
  datatype Listing = Listing(observed: map<Hash, Slot>, invalidated: set<Hash>, allowed: set<Hash>, restricted: bool)

  datatype State = State(slots: map<Hash, Slot>, listings: map<nat, Listing>, nextId: nat)

  function Lookup(slots: map<Hash, Slot>, h: Hash): Option<Slot> {
    if h in slots then Some(slots[h]) else None
  }

  predicate Fenced(l: Listing, h: Hash) {
    h in l.invalidated || (l.restricted && h !in l.allowed)
  }

  /** A listing's observations are only used while it is open. */
  predicate Usable(s: State, o: Observation) {
    o.listing.Some? ==> o.listing.value in s.listings
  }

  predicate Unchanged(s: State, h: Hash, o: Observation)
    requires Usable(s, o)
  {
    !(o.listing.Some? && Fenced(s.listings[o.listing.value], h)) && Lookup(s.slots, h) == o.slot
  }

  // ------------------------------------------------------------------ operations

  function Observe(s: State, h: Hash): (State, Observation) {
    if h in s.slots then (s, Observation(Some(s.slots[h]), None))
    else
      var slot := Slot(s.nextId, None);
      (s.(slots := s.slots[h := slot], nextId := s.nextId + 1), Observation(Some(slot), None))
  }

  /** A placeholder is dropped by the first of its readers to finish without a value. */
  predicate Drops(s: State, h: Hash, o: Observation) {
    h in s.slots && o.slot.Some? && s.slots[h].id == o.slot.value.id && s.slots[h].current.None?
  }

  function Finish(s: State, h: Hash, o: Observation): State {
    if Drops(s, h, o) then s.(slots := s.slots - {h}) else s
  }

  function OpenListing(s: State): State {
    s.(listings := s.listings[s.nextId := Listing(s.slots, {}, {}, false)], nextId := s.nextId + 1)
  }

  function Seen(s: State, l: nat, h: Hash): Observation
    requires l in s.listings
  {
    Observation(Lookup(s.listings[l].observed, h), Some(l))
  }

  function Invalidate(l: Listing, h: Hash): Listing {
    l.(invalidated := l.invalidated + {h})
  }

  function Forget(s: State, h: Hash, o: Observation): State
    requires Usable(s, o)
  {
    if !Unchanged(s, h, o) then s
    else s.(slots := s.slots - {h}, listings := map p | p in s.listings :: Invalidate(s.listings[p], h))
  }

  /** The hashes a finished listing removes: it did not find them, and they are placeholders or
      still exactly what it observed. */
  predicate Gone(s: State, l: nat, live: set<Hash>, h: Hash)
    requires l in s.listings
  {
    h in s.slots && h !in live && (s.slots[h].current.None? || Unchanged(s, h, Seen(s, l, h)))
  }

  function GoneSet(s: State, l: nat, live: set<Hash>): set<Hash>
    requires l in s.listings
  {
    set h | h in s.slots && Gone(s, l, live, h)
  }

  /** What a finished listing does to one that is still open. */
  function Narrow(l: Listing, live: set<Hash>): Listing {
    l.(restricted := true, allowed := if l.restricted then l.allowed * live else live)
  }

  function Restrict(l: Listing, gone: set<Hash>, live: set<Hash>): Listing {
    Narrow(l.(invalidated := l.invalidated + gone), live)
  }

  function FinishListing(s: State, l: nat, live: set<Hash>): State
    requires l in s.listings
  {
    var gone := GoneSet(s, l, live);
    s.(slots := map h | h in s.slots && h !in gone :: s.slots[h],
       listings := map p | p in s.listings && p != l :: Restrict(s.listings[p], gone, live))
  }

  function Publish(s: State, h: Hash, o: Observation, value: nat): State
    requires Usable(s, o)
  {
    if !Unchanged(s, h, o) then s
    else if h in s.slots then s.(slots := s.slots[h := s.slots[h].(current := Some(value))])
    else s.(slots := s.slots[h := Slot(s.nextId, Some(value))], nextId := s.nextId + 1)
  }

  /** A newer observation of the same value: the slot is replaced, so that older readers are fenced. */
  function Refresh(s: State, h: Hash, o: Observation): State
    requires Usable(s, o)
  {
    if h !in s.slots || s.slots[h].current.None? || !Unchanged(s, h, o) then s
    else s.(slots := s.slots[h := s.slots[h].(id := s.nextId)], nextId := s.nextId + 1)
  }

  // ------------------------------------------------------------------------ runs

  /** What a step did, kept only to state properties. */
  datatype Change =
    | Published(hash: Hash)
    | Refreshed(hash: Hash)
    | Dropped(hash: Hash)
    | Removed(hash: Hash)
    | Listed(gone: set<Hash>, live: set<Hash>)

  predicate Removes(c: Change, h: Hash) {
    (c.Removed? && c.hash == h) || (c.Listed? && h in c.gone)
  }

  predicate Publishes(c: Change, h: Hash) {
    (c.Published? || c.Refreshed?) && c.hash == h
  }

  predicate Touches(c: Change, h: Hash) {
    Removes(c, h) || Publishes(c, h) || (c.Dropped? && c.hash == h)
  }

  /** A listing finished that did not find the hash. */
  predicate Excludes(c: Change, h: Hash) {
    c.Listed? && h !in c.live
  }

  ghost predicate TouchedSince(log: seq<Change>, born: nat, h: Hash) {
    exists p :: born <= p < |log| && Touches(log[p], h)
  }

  ghost predicate PublishedSince(log: seq<Change>, born: nat, h: Hash) {
    exists p :: born <= p < |log| && Publishes(log[p], h)
  }

  ghost predicate RemovedSince(log: seq<Change>, born: nat, h: Hash) {
    exists p :: born <= p < |log| && Removes(log[p], h)
  }

  ghost predicate ExcludedSince(log: seq<Change>, born: nat, h: Hash) {
    exists p :: born <= p < |log| && Excludes(log[p], h)
  }

  /** A per-hash read that has not finished: what it saw, and how long the log was then. */
  datatype Read = Read(hash: Hash, seen: Slot, born: nat)

  datatype World = World(
    s: State, values: nat, log: seq<Change>, pending: map<nat, Read>, opening: map<nat, nat>, nextRead: nat)

  datatype Via = ByRead(token: nat) | ByListing(listing: nat, hash: Hash)

  datatype Step =
    | DoObserve(hash: Hash)
    | DoFinish(token: nat)
    | DoOpen
    | DoClose(listing: nat, live: set<Hash>)
    | DoPublish(via: Via)
    | DoForget(token: nat)
    | DoRefresh(via: Via)

  predicate CanUse(w: World, via: Via) {
    match via
    case ByRead(t) => t in w.pending
    case ByListing(l, _) => l in w.s.listings
  }

  function HashOf(w: World, via: Via): Hash
    requires CanUse(w, via)
  {
    match via
    case ByRead(t) => w.pending[t].hash
    case ByListing(_, h) => h
  }

  function ObservationOf(w: World, via: Via): Observation
    requires CanUse(w, via)
  {
    match via
    case ByRead(t) => Observation(Some(w.pending[t].seen), None)
    case ByListing(l, h) => Seen(w.s, l, h)
  }

  predicate Valid(w: World, via: Via)
    requires CanUse(w, via)
  {
    Unchanged(w.s, HashOf(w, via), ObservationOf(w, via))
  }

  function Log(w: World, s: State, c: Change): World {
    w.(s := s, log := w.log + [c])
  }

  function Observed(w: World, h: Hash): World {
    var (s, o) := Observe(w.s, h);
    w.(s := s, pending := w.pending[w.nextRead := Read(h, o.slot.value, |w.log|)], nextRead := w.nextRead + 1)
  }

  function Finished(w: World, t: nat): World
    requires t in w.pending
  {
    var r := w.pending[t];
    var o := Observation(Some(r.seen), None);
    var v := if Drops(w.s, r.hash, o) then Log(w, Finish(w.s, r.hash, o), Dropped(r.hash)) else w;
    v.(pending := w.pending - {t})
  }

  function Opened(w: World): World {
    w.(s := OpenListing(w.s), opening := w.opening[w.s.nextId := |w.log|])
  }

  function Closed(w: World, l: nat, live: set<Hash>): World
    requires l in w.s.listings
  {
    Log(w, FinishListing(w.s, l, live), Listed(GoneSet(w.s, l, live), live)).(opening := w.opening - {l})
  }

  /** Every published value is a new object. */
  function PublishedBy(w: World, via: Via): World
    requires CanUse(w, via)
  {
    var h := HashOf(w, via);
    if !Valid(w, via) then w
    else Log(w, Publish(w.s, h, ObservationOf(w, via), w.values), Published(h)).(values := w.values + 1)
  }

  function ForgottenBy(w: World, t: nat): World
    requires t in w.pending
  {
    var r := w.pending[t];
    if !Valid(w, ByRead(t)) then w
    else Log(w, Forget(w.s, r.hash, Observation(Some(r.seen), None)), Removed(r.hash))
  }

  function RefreshedBy(w: World, via: Via): World
    requires CanUse(w, via)
  {
    var h := HashOf(w, via);
    if h !in w.s.slots || w.s.slots[h].current.None? || !Valid(w, via) then w
    else Log(w, Refresh(w.s, h, ObservationOf(w, via)), Refreshed(h))
  }

  function Next(w: World, step: Step): World {
    match step
    case DoObserve(h) => Observed(w, h)
    case DoFinish(t) => if t in w.pending then Finished(w, t) else w
    case DoOpen => Opened(w)
    case DoClose(l, live) => if l in w.s.listings then Closed(w, l, live) else w
    case DoPublish(via) => if CanUse(w, via) then PublishedBy(w, via) else w
    case DoForget(t) => if t in w.pending then ForgottenBy(w, t) else w
    case DoRefresh(via) => if CanUse(w, via) then RefreshedBy(w, via) else w
  }

  function Start(): World {
    World(State(map[], map[], 0), 0, [], map[], map[], 0)
  }

  function Run(steps: seq<Step>): World {
    if steps == [] then Start() else Next(Run(steps[..|steps| - 1]), steps[|steps| - 1])
  }

  // ------------------------------------------------------------------- invariants

  predicate Old(w: World, slot: Slot) {
    slot.id < w.s.nextId && (slot.current.Some? ==> slot.current.value < w.values)
  }

  /** Identities in use were allocated earlier. */
  ghost predicate Allocated(w: World) {
    && (forall h :: h in w.s.slots ==> Old(w, w.s.slots[h]))
    && (forall t :: t in w.pending ==> t < w.nextRead && Old(w, w.pending[t].seen) && w.pending[t].born <= |w.log|)
    && (forall l :: l in w.s.listings ==> l < w.s.nextId)
    && (forall l, h :: l in w.s.listings && h in w.s.listings[l].observed ==> Old(w, w.s.listings[l].observed[h]))
    && (forall l :: l in w.s.listings ==> l in w.opening && w.opening[l] <= |w.log|)
  }

  /** A hash still looks as it did exactly when nothing happened to it since. */
  ghost predicate Exact(w: World, seen: Slot, h: Hash, born: nat) {
    Lookup(w.s.slots, h) == Some(seen) <==> !TouchedSince(w.log, born, h)
  }

  ghost predicate ReadsExact(w: World) {
    forall t :: t in w.pending ==> Exact(w, w.pending[t].seen, w.pending[t].hash, w.pending[t].born)
  }

  ghost predicate Fences(w: World, l: Listing, born: nat, h: Hash) {
    && (h in l.invalidated <==> RemovedSince(w.log, born, h))
    && (l.restricted && h !in l.allowed <==> ExcludedSince(w.log, born, h))
  }

  /** A listing that saw no slot: what was published since and not removed is still there. */
  ghost predicate Kept(w: World, born: nat, h: Hash) {
    PublishedSince(w.log, born, h) && !RemovedSince(w.log, born, h) ==>
      h in w.s.slots && w.s.slots[h].current.Some?
  }

  ghost predicate ListingExact(w: World, l: Listing, born: nat, h: Hash) {
    Fences(w, l, born, h) && if h in l.observed then Exact(w, l.observed[h], h, born) else Kept(w, born, h)
  }

  ghost predicate ListingsExact(w: World) {
    forall l, h :: l in w.s.listings && l in w.opening ==> ListingExact(w, w.s.listings[l], w.opening[l], h)
  }

  /** A slot without a value belongs to a read that has not finished. */
  ghost predicate Awaited(w: World, h: Hash) {
    h in w.s.slots && w.s.slots[h].current.None? ==>
      exists t :: t in w.pending && w.pending[t].hash == h && w.pending[t].seen == w.s.slots[h]
  }

  ghost predicate AllAwaited(w: World) {
    forall h :: Awaited(w, h)
  }

  ghost predicate Inv(w: World) {
    Allocated(w) && ReadsExact(w) && ListingsExact(w) && AllAwaited(w)
  }

  // ---- the log

  lemma SinceSnoc(log: seq<Change>, c: Change, born: nat, h: Hash)
    requires born <= |log|
    ensures TouchedSince(log + [c], born, h) <==> TouchedSince(log, born, h) || Touches(c, h)
    ensures PublishedSince(log + [c], born, h) <==> PublishedSince(log, born, h) || Publishes(c, h)
    ensures RemovedSince(log + [c], born, h) <==> RemovedSince(log, born, h) || Removes(c, h)
    ensures ExcludedSince(log + [c], born, h) <==> ExcludedSince(log, born, h) || Excludes(c, h)
  {
    var next := log + [c];
    assert next[|log|] == c;
    assert forall p :: 0 <= p < |log| ==> next[p] == log[p];
  }

  /** How one step may change what a hash looks like, and what the log says about it. */
  ghost predicate Local(w: World, v: World, h: Hash) {
    && w.s.nextId <= v.s.nextId && w.values <= v.values
    && (v.log == w.log || exists c :: v.log == w.log + [c])
    && (v.log == w.log ==>
          Lookup(v.s.slots, h) == Lookup(w.s.slots, h)
          || (h !in w.s.slots && h in v.s.slots && v.s.slots[h] == Slot(w.s.nextId, None)))
    && (|v.log| > |w.log| ==> Logged(w, v, v.log[|w.log|], h))
  }

  /** A logged change: hashes it does not touch look the same, removed and dropped ones have no slot,
      published ones hold a value no earlier observer can have seen in that slot. */
  ghost predicate Logged(w: World, v: World, c: Change, h: Hash) {
    && (!Touches(c, h) ==> Lookup(v.s.slots, h) == Lookup(w.s.slots, h))
    && (Removes(c, h) ==> h !in v.s.slots)
    && (c == Dropped(h) ==> h !in v.s.slots && h in w.s.slots && w.s.slots[h].current.None?)
    && (Publishes(c, h) ==>
          h in v.s.slots && v.s.slots[h].current.Some?
          && (v.s.slots[h].id == w.s.nextId || v.s.slots[h].current == Some(w.values)))
  }

  lemma ObserveLocal(w: World, h: Hash, g: Hash)
    ensures Local(w, Observed(w, h), g)
  {
  }

  lemma FinishLocal(w: World, t: nat, g: Hash)
    requires t in w.pending
    ensures Local(w, Finished(w, t), g)
  {
  }

  lemma CloseLocal(w: World, l: nat, live: set<Hash>, g: Hash)
    requires l in w.s.listings
    ensures Local(w, Closed(w, l, live), g)
  {
  }

  lemma PublishLocal(w: World, via: Via, g: Hash)
    requires CanUse(w, via)
    ensures Local(w, PublishedBy(w, via), g)
  {
  }

  lemma ForgetLocal(w: World, t: nat, g: Hash)
    requires t in w.pending
    ensures Local(w, ForgottenBy(w, t), g)
  {
  }

  lemma RefreshLocal(w: World, via: Via, g: Hash)
    requires CanUse(w, via)
    ensures Local(w, RefreshedBy(w, via), g)
  {
  }

  lemma NextLocal(w: World, step: Step, g: Hash)
    ensures Local(w, Next(w, step), g)
  {
    match step
    case DoObserve(h) => ObserveLocal(w, h, g);
    case DoFinish(t) => if t in w.pending { FinishLocal(w, t, g); }
    case DoOpen =>
    case DoClose(l, live) => if l in w.s.listings { CloseLocal(w, l, live, g); }
    case DoPublish(via) => if CanUse(w, via) { PublishLocal(w, via, g); }
    case DoForget(t) => if t in w.pending { ForgetLocal(w, t, g); }
    case DoRefresh(via) => if CanUse(w, via) { RefreshLocal(w, via, g); }
  }

  lemma ExactKept(w: World, v: World, seen: Slot, h: Hash, born: nat)
    requires Local(w, v, h) && Old(w, seen) && born <= |w.log| && Exact(w, seen, h, born)
    ensures Exact(v, seen, h, born) && Old(v, seen) && born <= |v.log|
  {
    if v.log != w.log {
      SinceSnoc(w.log, v.log[|w.log|], born, h);
      assert v.log == w.log + [v.log[|w.log|]];
    }
  }

  lemma KeptKept(w: World, v: World, h: Hash, born: nat)
    requires Local(w, v, h) && born <= |w.log| && Kept(w, born, h)
    ensures Kept(v, born, h)
  {
    if v.log != w.log {
      SinceSnoc(w.log, v.log[|w.log|], born, h);
      assert v.log == w.log + [v.log[|w.log|]];
    }
  }

  /** How one step may change an open listing. */
  ghost predicate Steps(w: World, v: World, a: Listing, b: Listing, h: Hash) {
    && (v.log == w.log || exists c :: v.log == w.log + [c])
    && a.observed == b.observed
    && (v.log == w.log ==> a == b)
    && (|v.log| > |w.log| ==>
          var c := v.log[|w.log|];
          && (h in b.invalidated <==> h in a.invalidated || Removes(c, h))
          && (b.restricted && h !in b.allowed <==> (a.restricted && h !in a.allowed) || Excludes(c, h)))
  }

  lemma FencesKept(w: World, v: World, a: Listing, b: Listing, h: Hash, born: nat)
    requires Steps(w, v, a, b, h) && born <= |w.log| && Fences(w, a, born, h)
    ensures Fences(v, b, born, h)
  {
    if v.log != w.log {
      SinceSnoc(w.log, v.log[|w.log|], born, h);
      assert v.log == w.log + [v.log[|w.log|]];
    }
  }

  /** Every listing open afterwards was open before, or was opened by this step. */
  lemma RemovalSteps(w: World, step: Step, l: nat, h: Hash)
    requires Allocated(w) && l in Next(w, step).s.listings && (step.DoClose? || step.DoForget?)
    ensures var v := Next(w, step);
      l in w.s.listings && l in v.opening && v.opening[l] == w.opening[l] && Steps(w, v, w.s.listings[l], v.s.listings[l], h)
  {
  }

  lemma NextSteps(w: World, step: Step, l: nat, h: Hash)
    requires Allocated(w) && l in Next(w, step).s.listings
    ensures var v := Next(w, step);
      if l in w.s.listings && l < w.s.nextId then
        l in v.opening && v.opening[l] == w.opening[l] && Steps(w, v, w.s.listings[l], v.s.listings[l], h)
      else
        step == DoOpen && l in v.opening && v.opening[l] == |w.log| && v.log == w.log && v.s.slots == w.s.slots
        && v.s.listings[l] == Listing(w.s.slots, {}, {}, false)
  {
    var v := Next(w, step);
    match step
    case DoObserve(_) =>
    case DoFinish(t) =>
    case DoOpen =>
    case DoClose(m, live) => RemovalSteps(w, step, l, h);
    case DoPublish(via) =>
    case DoForget(t) => RemovalSteps(w, step, l, h);
    case DoRefresh(via) =>
  }

  lemma ListingKept(w: World, step: Step, l: nat, h: Hash)
    requires Allocated(w) && ListingsExact(w) && l in Next(w, step).s.listings
    ensures var v := Next(w, step); l in v.opening && ListingExact(v, v.s.listings[l], v.opening[l], h)
  {
    var v := Next(w, step);
    NextSteps(w, step, l, h);
    NextLocal(w, step, h);
    if l in w.s.listings {
      var a, b, born := w.s.listings[l], v.s.listings[l], w.opening[l];
      assert ListingExact(w, a, born, h);
      FencesKept(w, v, a, b, h, born);
      if h in a.observed {
        ExactKept(w, v, a.observed[h], h, born);
      } else {
        KeptKept(w, v, h, born);
      }
    }
  }

  /** A read pending afterwards was pending before, or was begun by this step. */
  lemma NextReads(w: World, step: Step, t: nat)
    requires t in Next(w, step).pending
    ensures var v := Next(w, step);
      || (t in w.pending && v.pending[t] == w.pending[t])
      || (step.DoObserve? && t == w.nextRead && v.log == w.log
          && v.pending[t].born == |w.log| && v.pending[t].hash == step.hash
          && Lookup(v.s.slots, step.hash) == Some(v.pending[t].seen))
  {
  }

  lemma ReadKept(w: World, step: Step, t: nat)
    requires Allocated(w) && ReadsExact(w) && t in Next(w, step).pending
    ensures var r := Next(w, step).pending[t]; Exact(Next(w, step), r.seen, r.hash, r.born)
  {
    NextReads(w, step, t);
    var r := Next(w, step).pending[t];
    NextLocal(w, step, r.hash);
    if t in w.pending && w.pending[t] == r {
      ExactKept(w, Next(w, step), r.seen, r.hash, r.born);
    }
  }

  /** Only the last reader of a slot without a value takes it away. */
  lemma ReaderStays(w: World, step: Step, h: Hash, t: nat)
    requires h in w.s.slots && h in Next(w, step).s.slots && w.s.slots[h] == Next(w, step).s.slots[h]
    requires w.s.slots[h].current.None? && Allocated(w)
    requires t in w.pending && w.pending[t].hash == h && w.pending[t].seen == w.s.slots[h]
    ensures var v := Next(w, step); t in v.pending && v.pending[t] == w.pending[t]
  {
  }

  lemma AwaitedKept(w: World, step: Step, h: Hash)
    requires Allocated(w) && Awaited(w, h)
    ensures Awaited(Next(w, step), h)
  {
    var v := Next(w, step);
    if h in v.s.slots && v.s.slots[h].current.None? {
      if h in w.s.slots && w.s.slots[h] == v.s.slots[h] {
        var t :| t in w.pending && w.pending[t].hash == h && w.pending[t].seen == w.s.slots[h];
        ReaderStays(w, step, h, t);
      } else {
        NextLocal(w, step, h);
        assert step == DoObserve(h);
        assert w.nextRead in v.pending;
      }
    }
  }

  lemma SlotsOld(w: World, step: Step, h: Hash)
    requires Allocated(w) && h in Next(w, step).s.slots
    ensures Old(Next(w, step), Next(w, step).s.slots[h])
  {
  }

  lemma Grows(w: World, step: Step)
    ensures var v := Next(w, step);
      w.s.nextId <= v.s.nextId && w.values <= v.values && |w.log| <= |v.log| && w.nextRead <= v.nextRead
  {
  }

  lemma ListingsOld(w: World, step: Step, l: nat)
    requires Allocated(w) && l in Next(w, step).s.listings
    ensures var v := Next(w, step);
      && l < v.s.nextId && l in v.opening && v.opening[l] <= |v.log|
      && (forall h :: h in v.s.listings[l].observed ==> Old(v, v.s.listings[l].observed[h]))
  {
    Grows(w, step);
    NextSteps(w, step, l, "");
  }

  lemma AllocatedKept(w: World, step: Step)
    requires Allocated(w)
    ensures Allocated(Next(w, step))
  {
    var v := Next(w, step);
    Grows(w, step);
    forall h | h in v.s.slots ensures Old(v, v.s.slots[h]) {
      SlotsOld(w, step, h);
    }
    forall t | t in v.pending ensures t < v.nextRead && Old(v, v.pending[t].seen) && v.pending[t].born <= |v.log| {
      NextReads(w, step, t);
      if v.pending[t].hash in v.s.slots {
        SlotsOld(w, step, v.pending[t].hash);
      }
    }
    forall l | l in v.s.listings
      ensures l < v.s.nextId && l in v.opening && v.opening[l] <= |v.log|
      ensures forall h :: h in v.s.listings[l].observed ==> Old(v, v.s.listings[l].observed[h])
    {
      ListingsOld(w, step, l);
    }
  }

  lemma NextInv(w: World, step: Step)
    requires Inv(w)
    ensures Inv(Next(w, step))
  {
    var v := Next(w, step);
    AllocatedKept(w, step);
    forall t | t in v.pending ensures Exact(v, v.pending[t].seen, v.pending[t].hash, v.pending[t].born) {
      ReadKept(w, step, t);
    }
    forall l, h | l in v.s.listings && l in v.opening ensures ListingExact(v, v.s.listings[l], v.opening[l], h) {
      ListingKept(w, step, l, h);
    }
    forall h ensures Awaited(v, h) {
      AwaitedKept(w, step, h);
    }
  }

  lemma {:induction false} RunInv(steps: seq<Step>)
    ensures Inv(Run(steps))
  {
    if steps != [] {
      RunInv(steps[..|steps| - 1]);
      NextInv(Run(steps[..|steps| - 1]), steps[|steps| - 1]);
    }
  }

  // ------------------------------------------------------------------ main results

  /** In every run, a read may still publish exactly when nothing was published, refreshed, dropped
      or removed for its hash since it began. */
  lemma ReadMayPublish(steps: seq<Step>, t: nat)
    requires t in Run(steps).pending
    ensures var w := Run(steps); var r := w.pending[t];
      Valid(w, ByRead(t)) <==> !TouchedSince(w.log, r.born, r.hash)
  {
    RunInv(steps);
  }

  /** In every run, a listing may publish for a hash exactly when the hash was not removed since the
      listing began, every listing that finished meanwhile found it, and the slot the listing saw was
      not touched (or it saw none and there is none). It never overwrites something newer. */
  lemma ListingMayPublish(steps: seq<Step>, l: nat, h: Hash)
    requires l in Run(steps).s.listings
    ensures var w := Run(steps);
      && l in w.opening
      && var born := w.opening[l];
      && (Valid(w, ByListing(l, h)) <==>
            && !RemovedSince(w.log, born, h) && !ExcludedSince(w.log, born, h)
            && if h in w.s.listings[l].observed then !TouchedSince(w.log, born, h) else h !in w.s.slots)
      && (Valid(w, ByListing(l, h)) ==> !PublishedSince(w.log, born, h))
  {
    RunInv(steps);
    var w := Run(steps);
    assert ListingExact(w, w.s.listings[l], w.opening[l], h);
  }

  /** When the observation behind `via` was made. */
  ghost function Born(w: World, via: Via): nat
    requires CanUse(w, via) && (via.ByListing? ==> via.listing in w.opening)
  {
    match via
    case ByRead(t) => w.pending[t].born
    case ByListing(l, _) => w.opening[l]
  }

  /** After a hash was removed, nothing that began earlier can publish for it or refresh it, in any run. */
  lemma RemovalIsFinal(steps: seq<Step>, via: Via)
    requires CanUse(Run(steps), via) && (via.ByListing? ==> via.listing in Run(steps).opening)
    requires RemovedSince(Run(steps).log, Born(Run(steps), via), HashOf(Run(steps), via))
    ensures Run(steps + [DoPublish(via)]) == Run(steps) && Run(steps + [DoRefresh(via)]) == Run(steps)
  {
    assert (steps + [DoPublish(via)])[..|steps|] == steps;
    assert (steps + [DoRefresh(via)])[..|steps|] == steps;
    match via
    case ByRead(t) => ReadMayPublish(steps, t);
    case ByListing(l, h) => ListingMayPublish(steps, l, h);
  }

  /** Finishing a listing removes exactly the hashes it did not find that hold no value, or that were
      not fenced and have been left alone since the listing began. In particular a value published
      after it began stays. */
  lemma ListingRemovesOnlyStale(steps: seq<Step>, l: nat, live: set<Hash>, h: Hash)
    requires l in Run(steps).s.listings && h in Run(steps).s.slots
    ensures var w := Run(steps); var v := Run(steps + [DoClose(l, live)]); var slot := w.s.slots[h];
      && l in w.opening
      && var born := w.opening[l];
      && (h in v.s.slots ==> v.s.slots[h] == slot)
      && (h !in v.s.slots <==>
            && h !in live
            && (slot.current.None?
                || (h in w.s.listings[l].observed && !TouchedSince(w.log, born, h) && !ExcludedSince(w.log, born, h))))
      && (slot.current.Some? && PublishedSince(w.log, born, h) ==> h in v.s.slots)
  {
    assert (steps + [DoClose(l, live)])[..|steps|] == steps;
    RunInv(steps);
    var w := Run(steps);
    assert ListingExact(w, w.s.listings[l], w.opening[l], h);
  }

  /** Once every read has finished, every slot holds a value: no placeholder leaks. */
  lemma NoPlaceholderLeaks(steps: seq<Step>, h: Hash)
    requires Run(steps).pending == map[] && h in Run(steps).s.slots
    ensures Run(steps).s.slots[h].current.Some?
  {
    RunInv(steps);
    assert Awaited(Run(steps), h);
  }
}
