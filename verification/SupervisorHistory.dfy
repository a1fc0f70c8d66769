/** Whose claim stands and how often a session was started, told from the frames
    alone, and what each frame answers and stores. */
module SupervisorHistory {
  import opened Options
  import opened AgentSupervisor

  /** The world before frame `n`. */
  ghost function Before(store: map<SessionId, Record>, events: seq<Event>, n: nat): World
    requires Runs(Opened(store), events) && n <= |events|
  {
    FrontRuns(Opened(store), events, n);
    After(Opened(store), events[..n])
  }

  lemma {:induction false} FrontRuns(w: World, events: seq<Event>, n: nat)
    requires Runs(w, events) && n <= |events|
    ensures Runs(w, events[..n])
    ensures n < |events| ==> Runs(w, events[..n + 1]) && After(w, events[..n + 1]) == Step(After(w, events[..n]), events[n])
    decreases n
  {
    hide Step, Enabled;
    if n == 0 {
      if events != [] {
        assert events[..1][1..] == [];
      }
    } else {
      FrontRuns(Step(w, events[0]), events[1..], n - 1);
      assert events[..n][1..] == events[1..][..n - 1];
      assert n < |events| ==> events[..n + 1][1..] == events[1..][..n];
    }
  }

  lemma NextIs(store: map<SessionId, Record>, events: seq<Event>, n: nat)
    requires Runs(Opened(store), events) && n < |events|
    ensures Before(store, events, n + 1) == Step(Before(store, events, n), events[n])
  {
    FrontRuns(Opened(store), events, n);
  }

  lemma EndsAre(store: map<SessionId, Record>, events: seq<Event>)
    requires Runs(Opened(store), events)
    ensures Before(store, events, 0) == Opened(store) && Before(store, events, |events|) == After(Opened(store), events)
  {
    assert events[..0] == [] && events[..|events|] == events;
  }

  // -------------------------------------------------------------- the claims

  /** Frame `k` is a start of `id` by `c` that found or began its session. */
  ghost predicate Starts(store: map<SessionId, Record>, events: seq<Event>, k: nat, c: Client, id: SessionId)
    requires Runs(Opened(store), events) && k < |events|
  {
    events[k].StartFrame? && events[k].client == c && events[k].id == id
    && var e, s := events[k], Before(store, events, k).state;
       if Live(s, id) then e.attaches else e.starts
  }

  /** Frame `l` ends `c`'s claim on `id`: anybody's start of it, `c`'s own close or
      detach of its session, accepted and recorded, or the loss of `c`. */
  ghost predicate EndsClaim(store: map<SessionId, Record>, events: seq<Event>, l: nat, c: Client, id: SessionId)
    requires Runs(Opened(store), events) && l < |events|
  {
    match events[l]
    case StartFrame(d, _, _, _, _) => Starts(store, events, l, d, id)
    case CommandFrame(_, _) => false
    case CloseFrame(d, h, failing) => d == c && Recorded(Before(store, events, l).state, h, id, failing)
    case DetachFrame(d, h, failing) => d == c && Recorded(Before(store, events, l).state, h, id, failing)
    case Gone(d, _) => d == c
  }

  /** `h` is a session of `id`, and the record of giving it up is stored. */
  predicate Recorded(s: State, h: Handle, id: SessionId, failing: set<SessionId>) {
    h in s.sessions && s.sessions[h] == id && PutSucceeds(s.store, id, false, failing)
  }

  ghost predicate Stands(store: map<SessionId, Record>, events: seq<Event>, n: nat, k: int, c: Client, id: SessionId)
    requires Runs(Opened(store), events) && n <= |events|
  {
    0 <= k < n && Starts(store, events, k, c, id) && forall l :: k < l < n ==> !EndsClaim(store, events, l, c, id)
  }

  lemma LiveIsFound(s: State, id: SessionId)
    ensures Live(s, id) <==> HandleOf(s, id).Some?
  {
  }

  lemma ClaimNext(store: map<SessionId, Record>, events: seq<Event>, n: nat, c: Client, id: SessionId)
    requires Runs(Opened(store), events) && n < |events|
    ensures Claims(Before(store, events, n + 1), c, id)
       <==> Starts(store, events, n, c, id) || (Claims(Before(store, events, n), c, id) && !EndsClaim(store, events, n, c, id))
  {
    NextIs(store, events, n);
    if events[n].StartFrame? {
      LiveIsFound(Before(store, events, n).state, events[n].id);
    }
    hide Runs, Before, HandleOf, Live, Release, Disconnect, Start, PutSucceeds;
  }

  /** A claim stands exactly when its client started the session and nothing since has
      ended that. */
  lemma {:induction false} ClaimStandsIff(store: map<SessionId, Record>, events: seq<Event>, n: nat, c: Client, id: SessionId)
    requires Runs(Opened(store), events) && n <= |events|
    ensures Claims(Before(store, events, n), c, id) <==> exists k :: Stands(store, events, n, k, c, id)
    decreases n
  {
    if n == 0 {
      EndsAre(store, events);
    } else {
      var m := n - 1;
      ClaimStandsIff(store, events, m, c, id);
      ClaimNext(store, events, m, c, id);
      hide Runs, Before, Claims, Starts, EndsClaim;
      if k :| Stands(store, events, m, k, c, id) {
        assert !EndsClaim(store, events, m, c, id) ==> Stands(store, events, n, k, c, id);
      }
      if Starts(store, events, m, c, id) {
        assert Stands(store, events, n, m, c, id);
      }
      if k :| Stands(store, events, n, k, c, id) {
        assert k < m ==> Stands(store, events, m, k, c, id) && !EndsClaim(store, events, m, c, id);
      }
    }
  }

  /** Commands are accepted exactly from the client that started the session and has
      not lost it since, whatever anybody sent. */
  lemma CommandsIff(store: map<SessionId, Record>, events: seq<Event>, c: Client, h: Handle)
    requires Runs(Opened(store), events)
    ensures var s := After(Opened(store), events).state;
            Owns(s, c, h) <==> h in s.sessions && exists k :: Stands(store, events, |events|, k, c, s.sessions[h])
  {
    var w := After(Opened(store), events);
    OnlyTheClaimantCommands(store, events);
    EndsAre(store, events);
    if h in w.state.sessions {
      ClaimStandsIff(store, events, |events|, c, w.state.sessions[h]);
    }
    hide Runs, After, Before, Stands;
  }

  // -------------------------------------------------------------- the starts

  ghost function StartCount(store: map<SessionId, Record>, events: seq<Event>, n: nat, id: SessionId): nat
    requires Runs(Opened(store), events) && n <= |events|
  {
    if n == 0 then 0
    else StartCount(store, events, n - 1, id)
         + if events[n - 1].StartFrame? && Starts(store, events, n - 1, events[n - 1].client, id) then 1 else 0
  }

  lemma OneMoreStart(w: World, e: Event, id: SessionId)
    ensures StartsOf(Step(w, e), id) == StartsOf(w, id)
            + if e.StartFrame? && e.id == id && (if Live(w.state, id) then e.attaches else e.starts) then 1 else 0
  {
    if e.StartFrame? {
      LiveIsFound(w.state, e.id);
    }
    hide HandleOf, Live, Release, Disconnect, Start, PutSucceeds;
  }

  lemma {:induction false} StartsAreCounted(store: map<SessionId, Record>, events: seq<Event>, n: nat, id: SessionId)
    requires Runs(Opened(store), events) && n <= |events|
    ensures StartsOf(Before(store, events, n), id) == StartCount(store, events, n, id)
    decreases n
  {
    if n == 0 {
      EndsAre(store, events);
    } else {
      StartsAreCounted(store, events, n - 1, id);
      NextIs(store, events, n - 1);
      OneMoreStart(Before(store, events, n - 1), events[n - 1], id);
      hide Runs, Before, Step, StartsOf, Live;
    }
  }

  // ------------------------------------------------------ what a frame answers

  /** A start is acknowledged with a handle of that session, which from then on takes
      the client's commands, and is so exactly when it found or began the session and
      its record was stored, which happens unless the store fails or holds 2^63 - 1 starts:
      one start more, attached. */
  lemma StartAnswers(s: State, c: Client, id: SessionId, attaches: bool, starts: bool, failing: set<SessionId>)
    requires OneSessionEach(s)
    ensures var (next, reply) := Start(s, c, id, attaches, starts, failing);
            && (reply.Ack? <==> (if Live(s, id) then attaches else starts) && id !in failing
                                && (id in s.store ==> s.store[id].generation < 0x7FFF_FFFF_FFFF_FFFF))
            && (reply.Ack? ==>
                  && reply.handle.Some? && reply.handle.value in next.sessions && next.sessions[reply.handle.value] == id
                  && Owns(next, c, reply.handle.value)
                  && id in next.store && next.store[id].state == Attached
                  && next.store[id].generation == if id in s.store then s.store[id].generation + 1 else 1)
            && (forall other :: other != id ==>
                  ((other in next.store <==> other in s.store) && (other in s.store ==> next.store[other] == s.store[other])))
  {
    LiveIsFound(s, id);
    if HandleOf(s, id).Some? {
      HandleOfFinds(s, id);
    }
    hide HandleOf, Live;
  }

  /** A record put at its own generation is taken. */
  predicate Stores(store: map<SessionId, Record>, id: SessionId, failing: set<SessionId>) {
    id !in failing && (id in store ==> store[id].generation <= 0x7FFF_FFFF_FFFF_FFFF)
  }

  /** A close or a detach is acknowledged exactly to the owner whose record of it, if
      the session is still there, is stored; then nobody owns the handle, a closed
      session is gone and recorded as stopped, a detached one stays and is recorded so. */
  lemma ReleaseAnswers(s: State, c: Client, h: Handle, ends: bool, failing: set<SessionId>)
    ensures var (next, reply) := Release(s, c, h, ends, failing);
            if Owns(s, c, h) && (h in s.sessions ==> Stores(s.store, s.sessions[h], failing)) then
              && reply == Ack(None) && next.owners == s.owners - {h}
              && next.sessions == (if ends then s.sessions - {h} else s.sessions)
              && (h in s.sessions ==>
                    && s.sessions[h] in next.store && next.store[s.sessions[h]].state == (if ends then Stopped else Detached)
                    && (s.sessions[h] in s.store ==> next.store[s.sessions[h]].generation == s.store[s.sessions[h]].generation))
            else reply == Error && next == s
  {
  }

  /** A lost client leaves no owner behind: what it owned stays running, recorded as
      detached as far as the store takes that, and nothing else changes. */
  lemma GoneAnswers(s: State, c: Client, failing: set<SessionId>, h: Handle)
    requires OneSessionEach(s) && (Owns(s, c, h) ==> h in OwnedBy(s, c))
    ensures var next := Disconnect(s, c, failing);
            && next.sessions == s.sessions && !Owns(next, c, h)
            && (!Owns(s, c, h) ==> (h in next.owners <==> h in s.owners) && (h in s.owners ==> next.owners[h] == s.owners[h]))
            && (Owns(s, c, h) && h in s.sessions && Stores(s.store, s.sessions[h], failing) ==>
                  s.sessions[h] in next.store && next.store[s.sessions[h]].state == Detached)
  {
    if Owns(s, c, h) && h in s.sessions {
      assert h in Abandoned(s, c);
      assert s.sessions[h] in AbandonedIds(s, Abandoned(s, c));
    }
  }
}
