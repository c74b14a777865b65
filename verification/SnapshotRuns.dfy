/** What runs of the snapshot cache leave in it, told from the steps. */
module SnapshotRuns {
  import opened Types
  import opened SnapshotModel

  /** The value a hash's slot holds; a placeholder holds none. */
  function Held(w: World, h: Hash): Option<nat> {
    if h in w.s.slots then w.s.slots[h].current else None
  }

  /** The value that was published last for a hash and not removed since: by the reader that found it gone,
      or by a listing that did not find it and whose view of it was not outdated. Published values are
      numbered in order. */
  ghost function Told(steps: seq<Step>, h: Hash): Option<nat> {
    if steps == [] then None
    else
      var front, step := steps[..|steps| - 1], steps[|steps| - 1];
      var w, before := Run(front), Told(front, h);
      if step.DoPublish? && CanUse(w, step.via) && HashOf(w, step.via) == h && Valid(w, step.via) then Some(w.values)
      else if step.DoForget? && step.token in w.pending && w.pending[step.token].hash == h && Valid(w, ByRead(step.token)) then None
      else if step.DoClose? && step.listing in w.s.listings && h !in step.live && Valid(w, ByListing(step.listing, h)) then None
      else before
  }

  lemma HeldAfter(w: World, step: Step, h: Hash)
    ensures Held(Next(w, step), h) ==
      if step.DoPublish? && CanUse(w, step.via) && HashOf(w, step.via) == h && Valid(w, step.via) then Some(w.values)
      else if step.DoForget? && step.token in w.pending && w.pending[step.token].hash == h && Valid(w, ByRead(step.token)) then None
      else if step.DoClose? && step.listing in w.s.listings && h !in step.live && Valid(w, ByListing(step.listing, h)) then None
      else Held(w, h)
  {
    match step
    case DoClose(l, live) => if l in w.s.listings { CloseHeld(w, l, live, h); }
    case DoPublish(via) => if CanUse(w, via) { PublishHeld(w, via, h); }
    case _ =>
  }

  lemma CloseHeld(w: World, l: nat, live: set<Hash>, h: Hash)
    requires l in w.s.listings
    ensures Held(Closed(w, l, live), h) == if h !in live && Valid(w, ByListing(l, h)) then None else Held(w, h)
  {
  }

  lemma PublishHeld(w: World, via: Via, h: Hash)
    requires CanUse(w, via)
    ensures Held(PublishedBy(w, via), h) == if HashOf(w, via) == h && Valid(w, via) then Some(w.values) else Held(w, h)
  {
  }

  /** In every run a slot holds exactly the value published last and not removed since. */
  lemma {:induction false} HoldsLastPublished(steps: seq<Step>, h: Hash)
    ensures Held(Run(steps), h) == Told(steps, h)
  {
    if steps != [] {
      HoldsLastPublished(steps[..|steps| - 1], h);
      HeldAfter(Run(steps[..|steps| - 1]), steps[|steps| - 1], h);
    }
  }

  /** What happens to slots themselves: an observation makes a placeholder only where there is no slot; a
      publication keeps the slot; a refresh replaces it under a new identity with the same value; a reader
      that finishes takes away its own placeholder only. */
  lemma SlotsDo(w: World, h: Hash, t: nat, via: Via)
    ensures Lookup(Next(w, DoObserve(h)).s.slots, h) == (if h in w.s.slots then Some(w.s.slots[h]) else Some(Slot(w.s.nextId, None)))
    ensures t in w.pending && w.pending[t].hash == h && h in w.s.slots ==>
      (h !in Next(w, DoFinish(t)).s.slots <==> w.s.slots[h].current.None? && w.s.slots[h].id == w.pending[t].seen.id)
    ensures CanUse(w, via) && HashOf(w, via) == h && h in w.s.slots ==>
      && h in Next(w, DoPublish(via)).s.slots && Next(w, DoPublish(via)).s.slots[h].id == w.s.slots[h].id
      && Lookup(Next(w, DoRefresh(via)).s.slots, h) ==
           Some(if w.s.slots[h].current.Some? && Valid(w, via) then Slot(w.s.nextId, w.s.slots[h].current) else w.s.slots[h])
  {
  }

  /** A listing opens with everything there is and nothing fenced; a removal by a reader fences its hash in
      every open listing, and in no other way. */
  lemma ListingsDo(w: World, t: nat, l: nat, h: Hash)
    ensures w.s.nextId in Next(w, DoOpen).s.listings && Next(w, DoOpen).s.listings[w.s.nextId] == Listing(w.s.slots, {}, {}, false)
    ensures t in w.pending && Valid(w, ByRead(t)) && l in w.s.listings ==>
      && l in Next(w, DoForget(t)).s.listings
      && (h in Next(w, DoForget(t)).s.listings[l].invalidated <==> h in w.s.listings[l].invalidated || h == w.pending[t].hash)
  {
  }

  /** Each operation checks for itself: with an outdated observation it changes nothing. */
  lemma OutdatedDoesNothing(s: State, h: Hash, o: Observation, value: nat)
    requires Usable(s, o)
    ensures !Unchanged(s, h, o) ==> Forget(s, h, o) == s && Publish(s, h, o, value) == s && Refresh(s, h, o) == s
    ensures !(h in s.slots && s.slots[h].current.None? && o.slot.Some? && o.slot.value.id == s.slots[h].id) ==> Finish(s, h, o) == s
  {
  }
}
