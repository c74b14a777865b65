/** The fetcher's tables, changed in place under its lock. */
module PieceFetcher {
  import opened Types
  import opened FlightModel

  class Fetcher {
    var all: map<nat, Flight>
    var inflight: map<nat, nat>
    var live: set<nat>
    var closed: bool
    var nextId: nat

    ghost function State(): FlightModel.Fetcher
      reads this
    {
      FlightModel.Fetcher(all, inflight, live, closed, nextId)
    }

    constructor ()
      ensures State() == Start().f
    {
      all, inflight, live, closed, nextId := map[], map[], {}, false, 0;
    }

    method JoinFlight(index: nat) returns (flight: Option<nat>)
      modifies this
      ensures (State(), flight) == Join(old(State()), index)
    {
      if closed {
        return None;
      }
      if index in inflight && inflight[index] in all {
        var id := inflight[index];
        all := all[id := all[id].(waiters := all[id].waiters + 1)];
        return Some(id);
      }
      var id := nextId;
      nextId := nextId + 1;
      all := all[id := Flight(index, 1, false, false, false)];
      inflight := inflight[index := id];
      live := live + {id};
      return Some(id);
    }

    method DetachFlight(id: nat)
      requires id in all
      modifies this`all, this`inflight
      ensures State() == Detach(old(State()), id)
    {
      var flight := all[id];
      if flight.waiters > 0 {
        flight := flight.(waiters := flight.waiters - 1);
      }
      if flight.waiters == 0 && !flight.finished {
        if flight.index in inflight && inflight[flight.index] == id {
          inflight := inflight - {flight.index};
        }
        flight := flight.(cancelled := true);
      }
      all := all[id := flight];
    }

    /** The end of a flight, after its piece has been stored. */
    method FinishFlight(id: nat)
      requires id in all && !all[id].finished
      modifies this`all, this`inflight, this`live
      ensures State() == Complete(old(State()), id)
    {
      var flight := all[id].(finished := true);
      if flight.index in inflight && inflight[flight.index] == id {
        inflight := inflight - {flight.index};
      }
      live := live - {id};
      all := all[id := flight.(cancelled := true)];
    }

    /** Cancels every running flight; the caller then waits for those returned. */
    method BeginClose() returns (flights: set<nat>)
      requires forall id :: id in live ==> id in all
      modifies this`all, this`closed
      ensures State() == Close(old(State())) && flights == if old(closed) then {} else live
    {
      if closed {
        return {};
      }
      closed := true;
      var todo := live;
      while todo != {}
        invariant closed && forall id :: id in todo ==> id in live
        invariant forall id :: id in all <==> id in old(all)
        invariant forall id :: id in all ==>
          all[id] == if id in live && id !in todo then old(all)[id].(cancelled := true) else old(all)[id]
        decreases |todo|
      {
        var id :| id in todo;
        todo := todo - {id};
        all := all[id := all[id].(cancelled := true)];
      }
      assert all == Close(old(State())).all;
      return live;
    }
  }
}
