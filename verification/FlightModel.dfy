/** Shared fetches of missing pieces: readers join one flight per piece and leave it independently. */
module FlightModel {
  import opened Types

  /** `stored` says that the flight has put its piece into the cache, which it does before it is
      recorded as finished. */
  datatype Flight = Flight(index: nat, waiters: nat, finished: bool, cancelled: bool, stored: bool)

  /** `all` holds every flight ever started; `inflight` and `live` are the fetcher's two tables. */
  datatype Fetcher = Fetcher(all: map<nat, Flight>, inflight: map<nat, nat>, live: set<nat>, closed: bool, nextId: nat)

  // ------------------------------------------------------------------- operations

  function Join(f: Fetcher, index: nat): (Fetcher, Option<nat>) {
    if f.closed then (f, None)
    else if index in f.inflight && f.inflight[index] in f.all then
      var id := f.inflight[index];
      (f.(all := f.all[id := f.all[id].(waiters := f.all[id].waiters + 1)]), Some(id))
    else
      var id := f.nextId;
      (Fetcher(f.all[id := Flight(index, 1, false, false, false)], f.inflight[index := id], f.live + {id}, false, id + 1),
       Some(id))
  }

  function Unregister(inflight: map<nat, nat>, index: nat, id: nat): map<nat, nat> {
    if index in inflight && inflight[index] == id then inflight - {index} else inflight
  }

  function Detach(f: Fetcher, id: nat): Fetcher
    requires id in f.all
  {
    var was := f.all[id];
    var flight := was.(waiters := if was.waiters > 0 then was.waiters - 1 else 0);
    if flight.waiters == 0 && !flight.finished then
      f.(all := f.all[id := flight.(cancelled := true)], inflight := Unregister(f.inflight, flight.index, id))
    else f.(all := f.all[id := flight])
  }

  /** The piece arrived: it goes into the cache, outside the fetcher's lock. */
  function Store(f: Fetcher, id: nat): Fetcher
    requires id in f.all
  {
    if f.all[id].finished then f else f.(all := f.all[id := f.all[id].(stored := true)])
  }

  function Complete(f: Fetcher, id: nat): Fetcher
    requires id in f.all
  {
    if f.all[id].finished then f
    else
      f.(all := f.all[id := f.all[id].(finished := true, cancelled := true)],
         inflight := Unregister(f.inflight, f.all[id].index, id), live := f.live - {id})
  }

  /** Closing cancels what is running; it then waits for each of them. */
  function Close(f: Fetcher): Fetcher {
    if f.closed then f
    else
      f.(closed := true, all := map id | id in f.all :: if id in f.live then f.all[id].(cancelled := true) else f.all[id])
  }

  // ------------------------------------------------------------------------ runs

  /** `waiting` says which flight each reader has joined and not yet left; `awaited` are the flights
      the first Close waits for; `quiet` is set once it has returned. */
  datatype World = World(f: Fetcher, waiting: map<nat, nat>, awaited: set<nat>, quiet: bool)

  datatype Step =
    | DoJoin(reader: nat, index: nat)
    | DoLeave(reader: nat)
    | DoStore(flight: nat)
    | DoComplete(flight: nat)
    | DoClose
    | DoReturn

  predicate Enabled(w: World, step: Step) {
    match step
    case DoJoin(r, _) => r !in w.waiting
    case DoLeave(r) => r in w.waiting && w.waiting[r] in w.f.all
    case DoStore(id) => id in w.f.all && !w.f.all[id].finished
    case DoComplete(id) => id in w.f.all && !w.f.all[id].finished
    case DoClose => !w.f.closed
    case DoReturn => w.f.closed && forall id :: id in w.awaited && id in w.f.all ==> w.f.all[id].finished
  }

  function Next(w: World, step: Step): World {
    if !Enabled(w, step) then w
    else match step
      case DoJoin(r, index) =>
        var (f, id) := Join(w.f, index);
        if id.None? then w else w.(f := f, waiting := w.waiting[r := id.value])
      case DoLeave(r) => w.(f := Detach(w.f, w.waiting[r]), waiting := w.waiting - {r})
      case DoStore(id) => w.(f := Store(w.f, id))
      case DoComplete(id) => w.(f := Complete(w.f, id))
      case DoClose => w.(f := Close(w.f), awaited := w.f.live)
      case DoReturn => w.(quiet := true)
  }

  function Start(): World {
    World(Fetcher(map[], map[], {}, false, 0), map[], {}, false)
  }

  function Run(steps: seq<Step>): World {
    if steps == [] then Start() else Next(Run(steps[..|steps| - 1]), steps[|steps| - 1])
  }

  // ------------------------------------------------------------------- invariants

  function Joined(rs: map<nat, nat>, id: nat): set<nat> {
    set r | r in rs && rs[r] == id
  }

  ghost predicate Registered(f: Fetcher, id: nat)
    requires id in f.all
  {
    f.all[id].index in f.inflight && f.inflight[f.all[id].index] == id
  }

  /** One flight: its waiter count, its two tables, and what being cancelled means. */
  ghost predicate FlightOk(w: World, id: nat)
    requires id in w.f.all
  {
    var f := w.f.all[id];
    && id < w.f.nextId
    && f.waiters == |Joined(w.waiting, id)|
    && (id in w.f.live <==> !f.finished)
    && (Registered(w.f, id) <==> !f.finished && f.waiters > 0)
    && (!w.f.closed && !f.finished ==> (f.cancelled <==> f.waiters == 0))
    && (w.f.closed && !f.finished ==> id in w.awaited)
    && (w.quiet ==> f.finished)
  }

  ghost predicate Inv(w: World) {
    && (forall id :: id in w.f.all ==> FlightOk(w, id))
    && (forall i :: i in w.f.inflight ==> w.f.inflight[i] in w.f.all && w.f.all[w.f.inflight[i]].index == i)
    && (forall id :: id in w.f.live ==> id in w.f.all)
    && (forall r :: r in w.waiting ==> w.waiting[r] in w.f.all)
    && (w.quiet ==> w.f.closed)
  }

  lemma JoinedEnter(rs: map<nat, nat>, r: nat, id: nat, other: nat)
    requires r !in rs
    ensures |Joined(rs[r := id], other)| == |Joined(rs, other)| + if other == id then 1 else 0
  {
    if other == id {
      assert Joined(rs[r := id], other) == Joined(rs, other) + {r};
    } else {
      assert Joined(rs[r := id], other) == Joined(rs, other);
    }
  }

  lemma JoinedLeave(rs: map<nat, nat>, r: nat, other: nat)
    requires r in rs
    ensures |Joined(rs, other)| == |Joined(rs - {r}, other)| + if other == rs[r] then 1 else 0
  {
    if other == rs[r] {
      assert Joined(rs, other) == Joined(rs - {r}, other) + {r};
    } else {
      assert Joined(rs, other) == Joined(rs - {r}, other);
    }
  }

  lemma JoinedNone(rs: map<nat, nat>, id: nat)
    requires forall r :: r in rs ==> rs[r] != id
    ensures Joined(rs, id) == {}
  {
  }

  lemma JoinInv(w: World, r: nat, index: nat)
    requires Inv(w) && r !in w.waiting
    ensures Inv(Next(w, DoJoin(r, index)))
  {
    var v := Next(w, DoJoin(r, index));
    if !w.f.closed {
      var target := v.waiting[r];
      forall id | id in v.f.all ensures FlightOk(v, id) {
        JoinedEnter(w.waiting, r, target, id);
        if id !in w.f.all {
          JoinedNone(w.waiting, id);
        }
      }
    }
  }

  lemma LeaveFlight(w: World, r: nat, id: nat)
    requires Inv(w) && r in w.waiting && id in Next(w, DoLeave(r)).f.all
    ensures FlightOk(Next(w, DoLeave(r)), id)
  {
    JoinedLeave(w.waiting, r, id);
    assert FlightOk(w, id) && FlightOk(w, w.waiting[r]);
  }

  lemma LeaveInv(w: World, r: nat)
    requires Inv(w) && r in w.waiting
    ensures Inv(Next(w, DoLeave(r)))
  {
    var v := Next(w, DoLeave(r));
    forall id | id in v.f.all ensures FlightOk(v, id) {
      LeaveFlight(w, r, id);
    }
  }

  lemma StoreInv(w: World, id: nat)
    requires Inv(w) && id in w.f.all
    ensures Inv(Next(w, DoStore(id)))
  {
  }

  lemma CompleteInv(w: World, id: nat)
    requires Inv(w) && id in w.f.all
    ensures Inv(Next(w, DoComplete(id)))
  {
    var v := Next(w, DoComplete(id));
    forall n | n in v.f.all ensures FlightOk(v, n) {
      assert FlightOk(w, n);
    }
  }

  lemma CloseInv(w: World)
    requires Inv(w)
    ensures Inv(Next(w, DoClose)) && Inv(Next(w, DoReturn))
  {
  }

  lemma NextInv(w: World, step: Step)
    requires Inv(w)
    ensures Inv(Next(w, step))
  {
    if Enabled(w, step) {
      match step
      case DoJoin(r, index) => JoinInv(w, r, index);
      case DoLeave(r) => LeaveInv(w, r);
      case DoStore(id) => StoreInv(w, id);
      case DoComplete(id) => CompleteInv(w, id);
      case DoClose => CloseInv(w);
      case DoReturn => CloseInv(w);
    }
  }

  lemma {:induction false} RunInv(steps: seq<Step>)
    ensures Inv(Run(steps))
  {
    if steps != [] {
      RunInv(steps[..|steps| - 1]);
      NextInv(Run(steps[..|steps| - 1]), steps[|steps| - 1]);
    }
  }

  // ------------------------------------------------------------------ main results

  /** In every run, the registered flights are exactly the unfinished ones somebody waits for, and the
      count of waiters is the number of readers that joined and have not left. */
  lemma RegisteredMeansAwaited(steps: seq<Step>, id: nat)
    requires id in Run(steps).f.all
    ensures var w := Run(steps);
      && w.f.all[id].waiters == |Joined(w.waiting, id)|
      && (Registered(w.f, id) <==> !w.f.all[id].finished && Joined(w.waiting, id) != {})
  {
    RunInv(steps);
    assert FlightOk(Run(steps), id);
  }

  /** While the fetcher is open nobody waits for a cancelled fetch, and no two useful fetches of one
      piece run at once. */
  lemma OneUsefulFlight(steps: seq<Step>, a: nat, b: nat)
    requires var w := Run(steps); a in w.f.all && b in w.f.all && !w.f.closed && !w.f.all[a].finished && !w.f.all[b].finished
    ensures var w := Run(steps);
      && (w.f.all[a].cancelled <==> Joined(w.waiting, a) == {})
      && (!w.f.all[a].cancelled && !w.f.all[b].cancelled && w.f.all[a].index == w.f.all[b].index ==> a == b)
  {
    RunInv(steps);
    assert FlightOk(Run(steps), a) && FlightOk(Run(steps), b);
  }

  /** A reader that joins gets a running, uncancelled flight of its piece, or is told the fetcher is closed. */
  lemma JoinsRunningFlight(steps: seq<Step>, r: nat, index: nat)
    requires r !in Run(steps).waiting
    ensures var w := Run(steps); var v := Next(w, DoJoin(r, index));
      if w.f.closed then v == w
      else
        && r in v.waiting && v.waiting[r] in v.f.all
        && var flight := v.f.all[v.waiting[r]];
           flight.index == index && !flight.finished && !flight.cancelled
  {
    RunInv(steps);
    var w := Run(steps);
    if !w.f.closed && index in w.f.inflight {
      assert FlightOk(w, w.f.inflight[index]);
    }
  }

  /** A reader that leaves cancels its flight exactly when it was the last to wait for it, and touches
      no other flight. */
  lemma LeavingKeepsOthers(steps: seq<Step>, r: nat)
    requires var w := Run(steps); r in w.waiting && !w.f.closed
    ensures var w := Run(steps); var v := Next(w, DoLeave(r));
      && w.waiting[r] in w.f.all && w.waiting[r] in v.f.all
      && var id := w.waiting[r];
      && (!w.f.all[id].finished ==> (v.f.all[id].cancelled <==> forall o :: o in w.waiting && w.waiting[o] == id ==> o == r))
      && (forall other :: other in w.f.all && other != id ==> other in v.f.all && v.f.all[other] == w.f.all[other])
  {
    RunInv(steps);
    var w := Run(steps);
    var id := w.waiting[r];
    var v := Next(w, DoLeave(r));
    LeaveInv(w, r);
    assert FlightOk(w, id) && FlightOk(v, id);
    assert Joined(v.waiting, id) == {} <==> forall o :: o in w.waiting && w.waiting[o] == id ==> o == r by {
      assert forall o :: o in Joined(v.waiting, id) <==> o in w.waiting && w.waiting[o] == id && o != r;
    }
  }

  /** Once the first Close has returned no flight can store into the cache any more, in any continuation. */
  lemma QuietAfterClose(steps: seq<Step>, id: nat)
    requires Run(steps).quiet
    ensures !Enabled(Run(steps), DoStore(id)) && forall n :: n !in Run(steps).f.live
  {
    RunInv(steps);
    var w := Run(steps);
    if id in w.f.all {
      assert FlightOk(w, id);
    }
    forall n ensures n !in w.f.live {
      if n in w.f.all {
        assert FlightOk(w, n);
      }
    }
  }

  lemma {:induction false} StaysQuiet(steps: seq<Step>, k: nat)
    requires k <= |steps| && Run(steps[..k]).quiet
    ensures Run(steps).quiet
    decreases |steps|
  {
    if k < |steps| {
      assert steps[..|steps| - 1][..k] == steps[..k];
      StaysQuiet(steps[..|steps| - 1], k);
    } else {
      assert steps[..k] == steps;
    }
  }

  /** In every run a flight that completes is finished for good: no table lists it, a new reader of its
      piece gets another flight, and its readers and all other flights are left alone. */
  lemma CompletionFinishes(steps: seq<Step>, id: nat, other: nat)
    requires Enabled(Run(steps), DoComplete(id))
    ensures var w := Run(steps); var v := Next(w, DoComplete(id));
      && id in v.f.all && v.f.all[id].finished && v.f.all[id].cancelled && id !in v.f.live && !Registered(v.f, id)
      && v.waiting == w.waiting && v.f.all[id].stored == w.f.all[id].stored
      && (other != id ==> (other in v.f.all <==> other in w.f.all) && (other in v.f.live <==> other in w.f.live))
      && (other != id && other in w.f.all ==> v.f.all[other] == w.f.all[other] && (Registered(v.f, other) <==> Registered(w.f, other)))
  {
    RunInv(steps);
    assert FlightOk(Run(steps), id);
    if other in Run(steps).f.all {
      assert FlightOk(Run(steps), other);
    }
  }

  /** The piece goes into the cache before its flight is finished, and that changes nothing else. */
  lemma StoringMarks(steps: seq<Step>, id: nat)
    requires Enabled(Run(steps), DoStore(id))
    ensures var w := Run(steps); var v := Next(w, DoStore(id));
      v == w.(f := w.f.(all := w.f.all[id := w.f.all[id].(stored := true)]))
  {
  }

  /** In every run closing cancels every flight that is still running and waits for exactly those; it may
      return once each of them is finished, and nobody can join from then on. */
  lemma ClosingWaits(steps: seq<Step>, id: nat)
    requires !Run(steps).f.closed
    ensures var w := Run(steps); var v := Next(w, DoClose);
      && v.f.closed && !v.quiet && v.waiting == w.waiting && (id in v.f.all <==> id in w.f.all)
      && (id in w.f.all ==> v.f.all[id].finished == w.f.all[id].finished && v.f.all[id].stored == w.f.all[id].stored)
      && (id in w.f.all && !w.f.all[id].finished ==> v.f.all[id].cancelled && id in v.awaited)
      && (id in v.awaited ==> id in w.f.all && !w.f.all[id].finished)
      && (Enabled(v, DoReturn) <==> forall n :: n in v.awaited ==> n in v.f.all && v.f.all[n].finished)
  {
    RunInv(steps);
    var w := Run(steps);
    NextInv(w, DoClose);
    if id in w.f.all {
      assert FlightOk(w, id);
    }
    forall n | n in w.f.live ensures n in w.f.all && !w.f.all[n].finished {
      assert FlightOk(w, n);
    }
  }
}
