/** The shared state of the supervisor process and the handlers that update it,
    each carrying out one frame of `AgentSupervisor`. */
module SupervisorProcess {
  import opened Options
  import opened AgentSupervisor

  class Supervisor {
    var sessions: map<Handle, SessionId>
    var counter: nat
    var owners: map<Handle, Client>
    /** The set each client's connection keeps. */
    var owned: map<Client, set<Handle>>
    var store: map<SessionId, Record>

    function Now(): State
      reads this
    {
      State(sessions, counter, owners, owned, store)
    }

    constructor (store: map<SessionId, Record>)
      ensures Now() == Opened(store).state
    {
      sessions, counter, owners, owned, this.store := map[], 0, map[], map[], store;
    }

    method SetState(id: SessionId, state: RunState, advance: bool, failing: set<SessionId>) returns (ok: bool)
      modifies this`store
      ensures store == SetRuntimeState(old(store), id, state, advance, failing)
      ensures ok == PutSucceeds(old(store), id, advance, failing)
    {
      var generation: U64 := 1;
      if id in store {
        generation := if !advance then store[id].generation
                      else if store[id].generation < U64_MAX then store[id].generation + 1 else U64_MAX;
      }
      ok := id !in failing && generation <= I64_MAX;
      if ok {
        store := store[id := Record(generation, state)];
      }
    }

    method OnStart(c: Client, id: SessionId, attaches: bool, starts: bool, failing: set<SessionId>) returns (reply: Reply)
      requires OneSessionEach(Now())
      modifies this
      ensures (Now(), reply) == Start(old(Now()), c, id, attaches, starts, failing)
    {
      HandleOfFinds(Now(), id);
      var live := set h | h in sessions && sessions[h] == id;
      assert forall h :: h in Now().sessions && Now().sessions[h] == id ==> h in live;
      var handle;
      if live != {} {
        handle :| handle in live;
        assert Live(Now(), id) && HandleOf(Now(), id) == Some(handle) by {
          assert Now().sessions[handle] == id;
        }
        if !attaches {
          return Error;
        }
      } else {
        assert HandleOf(Now(), id) == None;
        counter := counter + 1;
        if !starts {
          return Error;
        }
        handle := counter;
        sessions := sessions[handle := id];
      }
      owners := owners[handle := c];
      owned := owned[c := (if c in owned then owned[c] else {}) + {handle}];
      var stored := SetState(id, Attached, true, failing);
      reply := if stored then Ack(Some(handle)) else Error;
    }

    /** `ensure_owner`, in front of every other frame: after any run it lets
        through exactly the client whose claim on the session stands. */
    method EnsureOwner(c: Client, h: Handle) returns (ok: bool)
      ensures ok == Owns(Now(), c, h)
      ensures forall w :: Fenced(w) && w.state == Now() ==> (ok <==> h in sessions && Claims(w, c, sessions[h]))
    {
      ok := h in owners && owners[h] == c;
      forall w | Fenced(w) && w.state == Now()
        ensures Owns(w.state, c, h) <==> h in w.state.sessions && Claims(w, c, w.state.sessions[h])
      {
        OwnsIffClaims(w, c, h);
      }
    }

    method OnClose(c: Client, h: Handle, failing: set<SessionId>) returns (reply: Reply)
      modifies this
      ensures (Now(), reply) == Release(old(Now()), c, h, true, failing)
    {
      var mine := EnsureOwner(c, h);
      if !mine {
        return Error;
      }
      if h in sessions {
        var stored := SetState(sessions[h], Stopped, false, failing);
        if !stored {
          return Error;
        }
      }
      sessions := sessions - {h};
      owners := owners - {h};
      owned := owned[c := (if c in owned then owned[c] else {}) - {h}];
      reply := Ack(None);
    }

    method OnDetach(c: Client, h: Handle, failing: set<SessionId>) returns (reply: Reply)
      modifies this
      ensures (Now(), reply) == Release(old(Now()), c, h, false, failing)
    {
      var mine := EnsureOwner(c, h);
      if !mine {
        return Error;
      }
      if h in sessions {
        var stored := SetState(sessions[h], Detached, false, failing);
        if !stored {
          return Error;
        }
      }
      owners := owners - {h};
      owned := owned[c := (if c in owned then owned[c] else {}) - {h}];
      reply := Ack(None);
    }

    /** `detach_owned`: each handle the client still owns is given up, and a
        store that refuses is ignored. */
    method OnGone(c: Client, failing: set<SessionId>)
      requires OneSessionEach(Now())
      modifies this
      ensures Now() == Disconnect(old(Now()), c, failing)
    {
      ghost var was := Now();
      var mine := if c in owned then owned[c] else {};
      ghost var seen: set<Handle> := {};
      var left := mine;
      while left != {}
        invariant seen + left == mine && seen !! left
        invariant sessions == was.sessions && counter == was.counter && owned == was.owned
        invariant owners == was.owners - (seen * Abandoned(was, c))
        invariant store == DetachAll(was.store, AbandonedIds(was, seen * Abandoned(was, c)), failing)
        decreases left
      {
        var h :| h in left;
        left := left - {h};
        ghost var before := seen;
        seen := seen + {h};
        if h !in owners || owners[h] != c {
          assert h !in Abandoned(was, c);
          assert seen * Abandoned(was, c) == before * Abandoned(was, c);
          continue;
        }
        assert h in Abandoned(was, c);
        assert seen * Abandoned(was, c) == before * Abandoned(was, c) + {h};
        owners := owners - {h};
        ghost var ids := AbandonedIds(was, before * Abandoned(was, c));
        if h in sessions {
          assert AbandonedIds(was, seen * Abandoned(was, c)) == ids + {sessions[h]};
          OneMore(was.store, ids, sessions[h], failing);
          var ignored := SetState(sessions[h], Detached, false, failing);
        } else {
          assert AbandonedIds(was, seen * Abandoned(was, c)) == ids;
        }
      }
      owned := owned - {c};
      assert seen * Abandoned(was, c) == Abandoned(was, c);
    }

    /** Marking one more session detached. */
    static lemma OneMore(store: map<SessionId, Record>, ids: set<SessionId>, id: SessionId, failing: set<SessionId>)
      requires id !in ids
      ensures DetachAll(store, ids + {id}, failing)
           == SetRuntimeState(DetachAll(store, ids, failing), id, Detached, false, failing)
    {
    }
  }
}
