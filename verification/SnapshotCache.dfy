/** The snapshot cache itself: slots and open listings, changed in place. */
module SnapshotCache {
  import opened Types
  import opened SnapshotModel

  class Cache {
    var slots: map<Hash, Slot>
    var listings: map<nat, Listing>
    var nextId: nat

    ghost function State(): State
      reads this
    {
      SnapshotModel.State(slots, listings, nextId)
    }

    constructor ()
      ensures State() == Start().s
    {
      slots, listings, nextId := map[], map[], 0;
    }

    method Observe(h: Hash) returns (o: Observation)
      modifies this`slots, this`nextId
      ensures (State(), o) == SnapshotModel.Observe(old(State()), h)
    {
      if h !in slots {
        slots := slots[h := Slot(nextId, None)];
        nextId := nextId + 1;
      }
      return Observation(Some(slots[h]), None);
    }

    method Finish(h: Hash, o: Observation)
      modifies this`slots
      ensures State() == SnapshotModel.Finish(old(State()), h, o)
    {
      if h in slots && o.slot.Some? && slots[h].id == o.slot.value.id && slots[h].current.None? {
        slots := slots - {h};
      }
    }

    method ObserveListing() returns (l: nat)
      modifies this`listings, this`nextId
      ensures l == old(nextId) && State() == OpenListing(old(State()))
    {
      l := nextId;
      listings := listings[l := Listing(slots, {}, {}, false)];
      nextId := nextId + 1;
    }

    method Unchanged(h: Hash, o: Observation) returns (same: bool)
      requires Usable(State(), o)
      ensures same == SnapshotModel.Unchanged(State(), h, o)
    {
      if o.listing.Some? {
        var l := listings[o.listing.value];
        if h in l.invalidated || (l.restricted && h !in l.allowed) {
          return false;
        }
      }
      return Lookup(slots, h) == o.slot;
    }

    method Publish(h: Hash, o: Observation, value: nat) returns (ok: bool)
      requires Usable(State(), o)
      modifies this`slots, this`nextId
      ensures ok == old(SnapshotModel.Unchanged(State(), h, o))
      ensures State() == SnapshotModel.Publish(old(State()), h, o, value)
    {
      ok := Unchanged(h, o);
      if !ok {
        return;
      }
      if h !in slots {
        slots := slots[h := Slot(nextId, None)];
        nextId := nextId + 1;
      }
      slots := slots[h := slots[h].(current := Some(value))];
    }

    /** A reader that saw a different creation time than the entry has: if it is the newest reader, the
        entry takes its time and older readers are fenced. */
    method Refresh(h: Hash, o: Observation, known: int, seen: int) returns (createdAt: int)
      requires Usable(State(), o)
      modifies this`slots, this`nextId
      ensures State() == if known != seen then SnapshotModel.Refresh(old(State()), h, o) else old(State())
      ensures createdAt ==
        if h in old(slots) && old(slots)[h].current.Some? && old(SnapshotModel.Unchanged(State(), h, o)) then seen else known
    {
      createdAt := known;
      if h !in slots || slots[h].current.None? {
        return;
      }
      var same := Unchanged(h, o);
      if same && known != seen {
        createdAt := seen;
        slots := slots[h := Slot(nextId, slots[h].current)];
        nextId := nextId + 1;
      }
    }

    /** Marks one hash in every open listing. */
    method InvalidateEverywhere(h: Hash)
      modifies this`listings
      ensures listings == map p | p in old(listings) :: Invalidate(old(listings)[p], h)
    {
      var todo := listings.Keys;
      while todo != {}
        invariant forall p :: p in todo ==> p in listings
        invariant forall p :: p in listings <==> p in old(listings)
        invariant forall p :: p in listings ==>
          listings[p] == if p in todo then old(listings)[p] else Invalidate(old(listings)[p], h)
        decreases |todo|
      {
        var p :| p in todo;
        todo := todo - {p};
        listings := listings[p := Invalidate(listings[p], h)];
      }
    }

    method Forget(h: Hash, o: Observation)
      requires Usable(State(), o)
      modifies this`slots, this`listings
      ensures State() == SnapshotModel.Forget(old(State()), h, o)
    {
      var same := Unchanged(h, o);
      if !same {
        return;
      }
      slots := slots - {h};
      InvalidateEverywhere(h);
    }

    /** Narrows the listings that are still open to what a finished one found. */
    method NarrowEverywhere(live: set<Hash>)
      modifies this`listings
      ensures listings == map p | p in old(listings) :: Narrow(old(listings)[p], live)
    {
      var todo := listings.Keys;
      while todo != {}
        invariant forall p :: p in todo ==> p in listings
        invariant forall p :: p in listings <==> p in old(listings)
        invariant forall p :: p in listings ==>
          listings[p] == if p in todo then old(listings)[p] else Narrow(old(listings)[p], live)
        decreases |todo|
      {
        var p :| p in todo;
        todo := todo - {p};
        listings := listings[p := Narrow(listings[p], live)];
      }
    }

    /** The hashes still to visit keep their fences: forgetting one hash says nothing of another. */
    method ForgetMissing(l: nat, live: set<Hash>)
      requires l in listings
      modifies this`slots, this`listings
      ensures slots == map h | h in old(slots) && h !in GoneSet(old(State()), l, live) :: old(slots)[h]
      ensures forall p :: p in listings <==> p in old(listings)
      ensures forall p :: p in listings ==> Marked(old(listings)[p], listings[p], GoneSet(old(State()), l, live))
    {
      ghost var was := State();
      ghost var done: set<Hash> := {};
      var todo := slots.Keys;
      while todo != {}
        invariant forall h :: h in was.slots <==> h in todo || h in done
        invariant todo !! done && Swept(was, l, live, done, slots, listings)
        decreases |todo|
      {
        var h :| h in todo;
        todo := todo - {h};
        SweepOne(was, l, live, done, slots, listings, h);
        if h !in live {
          VisitHash(l, h, was, live, GoneSet(was, l, live) * done);
        }
        done := done + {h};
      }
      SweptAll(was, l, live, done, slots, listings);
    }

    method VisitHash(l: nat, h: Hash, ghost was: State, ghost live: set<Hash>, ghost marks: set<Hash>)
      requires l in listings && h in slots && l in was.listings && h in was.slots && slots[h] == was.slots[h]
      requires h !in live && h !in marks && Marked(was.listings[l], listings[l], marks)
      modifies this`slots, this`listings
      ensures slots == if Gone(was, l, live, h) then old(slots) - {h} else old(slots)
      ensures listings == if Gone(was, l, live, h) then InvalidateAll(old(listings), h) else old(listings)
    {
      var observed := Observation(Lookup(listings[l].observed, h), Some(l));
      if slots[h].current.None? {
        observed := Observation(Some(slots[h]), None);
      }
      Forget(h, observed);
    }

    method FinishListing(l: nat, live: set<Hash>)
      requires l in listings
      modifies this`slots, this`listings
      ensures State() == SnapshotModel.FinishListing(old(State()), l, live)
    {
      ghost var was := State();
      ForgetMissing(l, live);
      ghost var marked := listings;
      listings := listings - {l};
      NarrowEverywhere(live);
      FinishedListing(was, l, live, marked, listings);
    }
  }

  ghost predicate Marked(a: Listing, b: Listing, marks: set<Hash>) {
    b == a.(invalidated := a.invalidated + marks)
  }

  function InvalidateAll(listings: map<nat, Listing>, h: Hash): map<nat, Listing> {
    map p | p in listings :: Invalidate(listings[p], h)
  }

  /** What a finishing listing has done once it has visited the hashes in `done`. */
  ghost predicate Swept(was: State, l: nat, live: set<Hash>, done: set<Hash>, slots: map<Hash, Slot>, listings: map<nat, Listing>) {
    && l in was.listings
    && (forall h :: h in slots <==> h in was.slots && !(h in done && Gone(was, l, live, h)))
    && (forall h :: h in slots ==> slots[h] == was.slots[h])
    && (forall p :: p in listings <==> p in was.listings)
    && (forall p :: p in listings ==> Marked(was.listings[p], listings[p], GoneSet(was, l, live) * done))
  }

  /** One more hash: it stays, or it goes and every listing is marked. */
  lemma SweepOne(was: State, l: nat, live: set<Hash>, done: set<Hash>, slots: map<Hash, Slot>, listings: map<nat, Listing>, h: Hash)
    requires Swept(was, l, live, done, slots, listings) && h in was.slots && h !in done
    ensures h in slots && slots[h] == was.slots[h]
    ensures if Gone(was, l, live, h)
      then Swept(was, l, live, done + {h}, slots - {h}, InvalidateAll(listings, h))
      else Swept(was, l, live, done + {h}, slots, listings)
  {
    var gone := GoneSet(was, l, live);
    if Gone(was, l, live, h) {
      forall p | p in listings ensures Marked(was.listings[p], Invalidate(listings[p], h), gone * (done + {h})) {
        assert was.listings[p].invalidated + gone * (done + {h}) == (was.listings[p].invalidated + gone * done) + {h};
      }
    } else {
      assert gone * (done + {h}) == gone * done;
    }
  }

  lemma SweptAll(was: State, l: nat, live: set<Hash>, done: set<Hash>, slots: map<Hash, Slot>, listings: map<nat, Listing>)
    requires Swept(was, l, live, done, slots, listings) && forall h :: h in was.slots <==> h in done
    ensures slots == map h | h in was.slots && h !in GoneSet(was, l, live) :: was.slots[h]
    ensures forall p :: p in listings ==> Marked(was.listings[p], listings[p], GoneSet(was, l, live))
  {
    assert GoneSet(was, l, live) * done == GoneSet(was, l, live);
  }

  lemma FinishedListing(was: State, l: nat, live: set<Hash>, marked: map<nat, Listing>, after: map<nat, Listing>)
    requires l in was.listings
    requires forall p :: p in marked <==> p in was.listings
    requires forall p :: p in marked ==> Marked(was.listings[p], marked[p], GoneSet(was, l, live))
    requires after == map p | p in marked - {l} :: Narrow((marked - {l})[p], live)
    ensures after == FinishListing(was, l, live).listings
  {
  }
}
