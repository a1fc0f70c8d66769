/** Who owns an agent session: `dispatch`, `ensure_owner`, `set_runtime_state`
    and `detach_owned` of `src-tauri/src/agent_supervisor.rs`, over the session
    registry of `src-tauri/src/agent_bridge.rs`. One frame is one step. */
module AgentSupervisor {
  import opened Options

  type Client = nat
  type SessionId = string
  /** The registry's counter; the handle itself is "agent-" and this number. */
  type Handle = nat

  datatype RunState = Attached | Detached | Stopped | Interrupted
  datatype Record = Record(generation: U64, state: RunState)

  type U64 = n: nat | n <= U64_MAX

  const U64_MAX: nat := 0xFFFF_FFFF_FFFF_FFFF
  const I64_MAX: nat := 0x7FFF_FFFF_FFFF_FFFF

  datatype State = State(
    sessions: map<Handle, SessionId>, counter: nat, owners: map<Handle, Client>,
    owned: map<Client, set<Handle>>, store: map<SessionId, Record>)

  datatype Reply = Ack(handle: Option<Handle>) | Error

  // -------------------------------------------------------------- the store

  function SaturatingSucc(n: U64): U64 { if n < U64_MAX then n + 1 else n }

  function NextGeneration(store: map<SessionId, Record>, id: SessionId, advance: bool): U64 {
    if id !in store then 1
    else if advance then SaturatingSucc(store[id].generation)
    else store[id].generation
  }

  /** `put` refuses a generation beyond a signed 64-bit column, and may fail. */
  predicate PutSucceeds(store: map<SessionId, Record>, id: SessionId, advance: bool, failing: set<SessionId>) {
    id !in failing && NextGeneration(store, id, advance) <= I64_MAX
  }

  function SetRuntimeState(store: map<SessionId, Record>, id: SessionId, state: RunState, advance: bool, failing: set<SessionId>): map<SessionId, Record> {
    if PutSucceeds(store, id, advance, failing) then store[id := Record(NextGeneration(store, id, advance), state)] else store
  }

  /** Every session of a set marked detached, as far as the store allows. */
  function DetachAll(store: map<SessionId, Record>, ids: set<SessionId>, failing: set<SessionId>): map<SessionId, Record> {
    map id | id in store.Keys + (set i | i in ids && PutSucceeds(store, i, false, failing)) ::
      if id in ids && PutSucceeds(store, id, false, failing) then Record(NextGeneration(store, id, false), Detached)
      else store[id]
  }

  // -------------------------------------------------------------- the frames

  predicate Owns(s: State, c: Client, h: Handle) { h in s.owners && s.owners[h] == c }

  /** The handle of a live session, if it has one. */
  ghost function HandleOf(s: State, id: SessionId): Option<Handle> {
    if exists h :: h in s.sessions && s.sessions[h] == id then
      var h :| h in s.sessions && s.sessions[h] == id;
      Some(h)
    else None
  }

  function OwnedBy(s: State, c: Client): set<Handle> { if c in s.owned then s.owned[c] else {} }

  /** The owner table, the client's own set and the store, once a start has a handle. */
  function Adopt(s: State, c: Client, id: SessionId, h: Handle, failing: set<SessionId>): State {
    s.(owners := s.owners[h := c], owned := s.owned[c := OwnedBy(s, c) + {h}],
       store := SetRuntimeState(s.store, id, Attached, true, failing))
  }

  /** A start attaches to the live session of that id or starts one. */
  ghost function Start(s: State, c: Client, id: SessionId, attaches: bool, starts: bool, failing: set<SessionId>): (State, Reply) {
    var reply := (h: Handle) => if PutSucceeds(s.store, id, true, failing) then Ack(Some(h)) else Error;
    match HandleOf(s, id)
    case Some(h) => if attaches then (Adopt(s, c, id, h, failing), reply(h)) else (s, Error)
    case None =>
      var h := s.counter + 1;
      var counted := s.(counter := h);
      if starts then (Adopt(counted.(sessions := s.sessions[h := id]), c, id, h, failing), reply(h)) else (counted, Error)
  }

  /** The owner of a handle gives it up, to end the session or to leave it running. */
  function Release(s: State, c: Client, h: Handle, ends: bool, failing: set<SessionId>): (State, Reply) {
    if !Owns(s, c, h) then (s, Error)
    else if h in s.sessions && !PutSucceeds(s.store, s.sessions[h], false, failing) then (s, Error)
    else
      var store := if h in s.sessions then SetRuntimeState(s.store, s.sessions[h], if ends then Stopped else Detached, false, failing) else s.store;
      (s.(store := store, sessions := if ends then s.sessions - {h} else s.sessions,
          owners := s.owners - {h}, owned := s.owned[c := OwnedBy(s, c) - {h}]), Ack(None))
  }

  /** What the client still owns when its connection ends. */
  function Abandoned(s: State, c: Client): set<Handle> { set h | h in OwnedBy(s, c) && Owns(s, c, h) }

  function AbandonedIds(s: State, hs: set<Handle>): set<SessionId> { set h | h in hs && h in s.sessions :: s.sessions[h] }

  function Disconnect(s: State, c: Client, failing: set<SessionId>): State {
    s.(owners := s.owners - Abandoned(s, c), owned := s.owned - {c},
       store := DetachAll(s.store, AbandonedIds(s, Abandoned(s, c)), failing))
  }

  // ---------------------------------------------------------------- the runs

  datatype Event =
    | StartFrame(client: Client, id: SessionId, attaches: bool, starts: bool, failing: set<SessionId>)
    | CommandFrame(client: Client, handle: Handle)  // prompt, cancel or answer
    | CloseFrame(client: Client, handle: Handle, failing: set<SessionId>)
    | DetachFrame(client: Client, handle: Handle, failing: set<SessionId>)
    | Gone(client: Client, failing: set<SessionId>)

  /** Beside the state, what an observer of the frames would note down: per
      session id the client whose claim on it stands, how often it was started,
      and the clients that have gone. */
  datatype World = World(state: State, claims: map<SessionId, Client>, starts: map<SessionId, nat>, gone: set<Client>)

  /** A client id is drawn for one connection and not used again. */
  predicate Enabled(w: World, e: Event) { e.client !in w.gone }

  function StartsOf(w: World, id: SessionId): nat { if id in w.starts then w.starts[id] else 0 }

  predicate Claims(w: World, c: Client, id: SessionId) { id in w.claims && w.claims[id] == c }

  /** A start is a claim unless it fails before the session is at hand. */
  ghost predicate StartTakes(s: State, e: Event)
    requires e.StartFrame?
  {
    if HandleOf(s, e.id).Some? then e.attaches else e.starts
  }

  /** A standing claim is dropped by its own client when the store takes it. */
  function Dropped(w: World, e: Event): map<SessionId, Client>
    requires e.CloseFrame? || e.DetachFrame?
  {
    if e.handle in w.state.sessions && Claims(w, e.client, w.state.sessions[e.handle])
       && PutSucceeds(w.state.store, w.state.sessions[e.handle], false, e.failing)
    then w.claims - {w.state.sessions[e.handle]} else w.claims
  }

  ghost function Step(w: World, e: Event): World {
    match e
    case StartFrame(c, id, attaches, starts, failing) =>
      var state := Start(w.state, c, id, attaches, starts, failing).0;
      if StartTakes(w.state, e) then w.(state := state, claims := w.claims[id := c], starts := w.starts[id := StartsOf(w, id) + 1])
      else w.(state := state)
    case CommandFrame(_, _) => w
    case CloseFrame(c, h, failing) => w.(state := Release(w.state, c, h, true, failing).0, claims := Dropped(w, e))
    case DetachFrame(c, h, failing) => w.(state := Release(w.state, c, h, false, failing).0, claims := Dropped(w, e))
    case Gone(c, failing) =>
      w.(state := Disconnect(w.state, c, failing), gone := w.gone + {c},
         claims := map id | id in w.claims && w.claims[id] != c :: w.claims[id])
  }

  function Opened(store: map<SessionId, Record>): World { World(State(map[], 0, map[], map[], store), map[], map[], {}) }

  ghost predicate Runs(w: World, events: seq<Event>)
    decreases |events|
  {
    events != [] ==> Enabled(w, events[0]) && Runs(Step(w, events[0]), events[1..])
  }

  ghost function After(w: World, events: seq<Event>): World
    requires Runs(w, events)
    decreases |events|
  {
    if events == [] then w else After(Step(w, events[0]), events[1..])
  }

  // ------------------------------------------------------------- ownership

  /** One live session per session id, under a handle already drawn. */
  ghost predicate OneSessionEach(s: State) {
    && (forall h :: h in s.sessions ==> h <= s.counter)
    && (forall h, g :: h in s.sessions && g in s.sessions && s.sessions[h] == s.sessions[g] ==> h == g)
  }

  /** The owner table says exactly what the standing claims say. */
  ghost predicate OwnersHaveClaims(w: World) {
    forall h :: h in w.state.owners ==> h in w.state.sessions && Claims(w, w.state.owners[h], w.state.sessions[h])
  }

  ghost predicate ClaimsHaveOwners(w: World) {
    forall h :: h in w.state.sessions && w.state.sessions[h] in w.claims ==> h in w.state.owners
  }

  ghost predicate Live(s: State, id: SessionId) { exists h :: h in s.sessions && s.sessions[h] == id }

  ghost predicate ClaimsAreLive(w: World) { forall id :: id in w.claims ==> Live(w.state, id) }

  /** An owner is a connected client that remembers what it owns. */
  ghost predicate OwnersRemember(w: World) {
    forall h :: h in w.state.owners ==> w.state.owners[h] !in w.gone && h in OwnedBy(w.state, w.state.owners[h])
  }

  ghost predicate Fenced(w: World) {
    OneSessionEach(w.state) && OwnersHaveClaims(w) && ClaimsHaveOwners(w) && ClaimsAreLive(w) && OwnersRemember(w)
  }

  lemma OwnsIffClaims(w: World, c: Client, h: Handle)
    requires Fenced(w)
    ensures Owns(w.state, c, h) <==> h in w.state.sessions && Claims(w, c, w.state.sessions[h])
  {
  }

  /** Handle `h` of session `id` passes to `c`: everything else is as it was. */
  function Adopted(w: World, c: Client, id: SessionId, h: Handle, store: map<SessionId, Record>): World {
    w.(state := w.state.(owners := w.state.owners[h := c], owned := w.state.owned[c := OwnedBy(w.state, c) + {h}], store := store),
       claims := w.claims[id := c])
  }

  lemma AdoptedClaims(w: World, c: Client, id: SessionId, h: Handle, store: map<SessionId, Record>)
    requires OneSessionEach(w.state) && OwnersHaveClaims(w) && ClaimsHaveOwners(w)
    requires h in w.state.sessions && w.state.sessions[h] == id
    ensures OwnersHaveClaims(Adopted(w, c, id, h, store)) && ClaimsHaveOwners(Adopted(w, c, id, h, store))
  {
  }

  lemma AdoptedLive(w: World, c: Client, id: SessionId, h: Handle, store: map<SessionId, Record>)
    requires ClaimsAreLive(w) && h in w.state.sessions && w.state.sessions[h] == id
    ensures ClaimsAreLive(Adopted(w, c, id, h, store))
  {
    forall i | i in Adopted(w, c, id, h, store).claims
      ensures Live(Adopted(w, c, id, h, store).state, i)
    {
      assert Live(w.state, id) && (i != id ==> Live(w.state, i));
    }
  }

  lemma AdoptedRemember(w: World, c: Client, id: SessionId, h: Handle, store: map<SessionId, Record>)
    requires OwnersRemember(w) && c !in w.gone
    ensures OwnersRemember(Adopted(w, c, id, h, store))
  {
  }

  lemma AdoptKeepsFenced(w: World, c: Client, id: SessionId, h: Handle, store: map<SessionId, Record>)
    requires Fenced(w) && c !in w.gone && h in w.state.sessions && w.state.sessions[h] == id
    ensures Fenced(Adopted(w, c, id, h, store))
  {
    AdoptedClaims(w, c, id, h, store);
    AdoptedLive(w, c, id, h, store);
    AdoptedRemember(w, c, id, h, store);
    hide OwnersHaveClaims, ClaimsHaveOwners, ClaimsAreLive, OwnersRemember;
  }

  /** A session begun under the next handle: nobody claims it yet. */
  function Begun(w: World, id: SessionId): World {
    w.(state := w.state.(counter := w.state.counter + 1, sessions := w.state.sessions[w.state.counter + 1 := id]))
  }

  lemma BegunSessions(w: World, id: SessionId)
    requires OneSessionEach(w.state) && !Live(w.state, id)
    ensures OneSessionEach(Begun(w, id).state)
  {
  }

  lemma BegunLive(w: World, id: SessionId)
    requires OneSessionEach(w.state) && ClaimsAreLive(w)
    ensures ClaimsAreLive(Begun(w, id))
  {
    forall i | i in w.claims
      ensures Live(Begun(w, id).state, i)
    {
      var g :| g in w.state.sessions && w.state.sessions[g] == i;
      assert Begun(w, id).state.sessions[g] == i;
    }
  }

  lemma BegunOwners(w: World, id: SessionId)
    requires Fenced(w) && !Live(w.state, id)
    ensures OwnersHaveClaims(Begun(w, id)) && ClaimsHaveOwners(Begun(w, id)) && OwnersRemember(Begun(w, id))
  {
    assert id !in w.claims;
    hide Live;
    assert w.state.counter + 1 !in w.state.sessions;
  }

  lemma FencedParts(w: World)
    requires OneSessionEach(w.state) && OwnersHaveClaims(w) && ClaimsHaveOwners(w) && ClaimsAreLive(w) && OwnersRemember(w)
    ensures Fenced(w)
  {
  }

  lemma BeginKeepsFenced(w: World, id: SessionId)
    requires Fenced(w) && !Live(w.state, id)
    ensures Fenced(Begun(w, id))
  {
    BegunSessions(w, id);
    BegunLive(w, id);
    BegunOwners(w, id);
    hide *;
    FencedParts(Begun(w, id));
  }

  lemma HandleOfFinds(s: State, id: SessionId)
    ensures match HandleOf(s, id)
            case Some(h) => h in s.sessions && s.sessions[h] == id
            case None => !Live(s, id)
  {
  }

  /** Only the counter moves when a session cannot be begun. */
  lemma CountKeepsFenced(w: World)
    requires Fenced(w)
    ensures Fenced(w.(state := w.state.(counter := w.state.counter + 1)))
  {
    assert forall id :: Live(w.(state := w.state.(counter := w.state.counter + 1)).state, id) <==> Live(w.state, id);
  }

  lemma StartKeepsFenced(w: World, e: Event)
    requires Fenced(w) && Enabled(w, e) && e.StartFrame?
    ensures Fenced(Step(w, e))
  {
    hide Fenced, SetRuntimeState, PutSucceeds, OwnedBy, HandleOf, Live;
    var store := SetRuntimeState(w.state.store, e.id, Attached, true, e.failing);
    HandleOfFinds(w.state, e.id);
    match HandleOf(w.state, e.id) {
      case Some(h) =>
        if e.attaches {
          AdoptKeepsFenced(w, e.client, e.id, h, store);
          StartsDoNotMatter(Adopted(w, e.client, e.id, h, store), Step(w, e).starts);
        }
      case None =>
        if e.starts {
          BeginKeepsFenced(w, e.id);
          AdoptKeepsFenced(Begun(w, e.id), e.client, e.id, w.state.counter + 1, store);
          StartsDoNotMatter(Adopted(Begun(w, e.id), e.client, e.id, w.state.counter + 1, store), Step(w, e).starts);
        } else {
          CountKeepsFenced(w);
        }
    }
  }

  lemma StartsDoNotMatter(w: World, starts: map<SessionId, nat>)
    requires Fenced(w)
    ensures Fenced(w.(starts := starts))
  {
  }

  /** The claimant of session `id` lets go of its handle. */
  function LetGo(w: World, c: Client, h: Handle, ends: bool, store: map<SessionId, Record>): World
    requires h in w.state.sessions
  {
    w.(state := w.state.(store := store, sessions := if ends then w.state.sessions - {h} else w.state.sessions,
                         owners := w.state.owners - {h}, owned := w.state.owned[c := OwnedBy(w.state, c) - {h}]),
       claims := w.claims - {w.state.sessions[h]})
  }

  lemma LetGoClaims(w: World, c: Client, h: Handle, ends: bool, store: map<SessionId, Record>)
    requires OneSessionEach(w.state) && OwnersHaveClaims(w) && ClaimsHaveOwners(w) && h in w.state.sessions
    ensures OneSessionEach(LetGo(w, c, h, ends, store).state)
    ensures OwnersHaveClaims(LetGo(w, c, h, ends, store)) && ClaimsHaveOwners(LetGo(w, c, h, ends, store))
  {
  }

  lemma LetGoLive(w: World, c: Client, h: Handle, ends: bool, store: map<SessionId, Record>)
    requires ClaimsAreLive(w) && h in w.state.sessions
    ensures ClaimsAreLive(LetGo(w, c, h, ends, store))
  {
    var next := LetGo(w, c, h, ends, store);
    forall i | i in next.claims
      ensures Live(next.state, i)
    {
      var g :| g in w.state.sessions && w.state.sessions[g] == i;
      assert g in next.state.sessions && next.state.sessions[g] == i;
    }
  }

  lemma LetGoRemember(w: World, c: Client, h: Handle, ends: bool, store: map<SessionId, Record>)
    requires OwnersRemember(w) && h in w.state.sessions
    ensures OwnersRemember(LetGo(w, c, h, ends, store))
  {
  }

  lemma LetGoKeepsFenced(w: World, c: Client, h: Handle, ends: bool, store: map<SessionId, Record>)
    requires Fenced(w) && h in w.state.sessions
    ensures Fenced(LetGo(w, c, h, ends, store))
  {
    LetGoClaims(w, c, h, ends, store);
    LetGoLive(w, c, h, ends, store);
    LetGoRemember(w, c, h, ends, store);
    hide OneSessionEach, OwnersHaveClaims, ClaimsHaveOwners, ClaimsAreLive, OwnersRemember;
  }

  lemma ReleaseKeepsFenced(w: World, e: Event)
    requires Fenced(w) && Enabled(w, e) && (e.CloseFrame? || e.DetachFrame?)
    ensures Fenced(Step(w, e))
  {
    OwnsIffClaims(w, e.client, e.handle);
    if Owns(w.state, e.client, e.handle) {
      var store := SetRuntimeState(w.state.store, w.state.sessions[e.handle], if e.CloseFrame? then Stopped else Detached, false, e.failing);
      LetGoKeepsFenced(w, e.client, e.handle, e.CloseFrame?, store);
    }
    hide Fenced, SetRuntimeState, PutSucceeds, OwnedBy;
  }

  lemma GoneClaims(w: World, c: Client, failing: set<SessionId>)
    requires OwnersHaveClaims(w) && ClaimsHaveOwners(w) && OwnersRemember(w)
    ensures OwnersHaveClaims(Step(w, Gone(c, failing))) && ClaimsHaveOwners(Step(w, Gone(c, failing)))
    ensures OwnersRemember(Step(w, Gone(c, failing)))
  {
    hide DetachAll;
    var next := Step(w, Gone(c, failing));
    assert forall h :: h in next.state.owners <==> h in w.state.owners && w.state.owners[h] != c;
  }

  lemma GoneKeepsFenced(w: World, e: Event)
    requires Fenced(w) && Enabled(w, e) && e.Gone?
    ensures Fenced(Step(w, e))
  {
    GoneClaims(w, e.client, e.failing);
    assert forall id :: Live(Step(w, e).state, id) <==> Live(w.state, id);
    hide OwnersHaveClaims, ClaimsHaveOwners, OwnersRemember, Live, DetachAll;
  }

  lemma StepKeepsFenced(w: World, e: Event)
    requires Fenced(w) && Enabled(w, e)
    ensures Fenced(Step(w, e))
  {
    match e
    case StartFrame(_, _, _, _, _) => StartKeepsFenced(w, e);
    case CommandFrame(_, _) =>
    case CloseFrame(_, _, _) => ReleaseKeepsFenced(w, e);
    case DetachFrame(_, _, _) => ReleaseKeepsFenced(w, e);
    case Gone(_, _) => GoneKeepsFenced(w, e);
  }

  lemma {:induction false} RunKeepsFenced(w: World, events: seq<Event>)
    requires Fenced(w) && Runs(w, events)
    ensures Fenced(After(w, events))
    decreases |events|
  {
    if events != [] {
      StepKeepsFenced(w, events[0]);
      RunKeepsFenced(Step(w, events[0]), events[1..]);
    }
  }

  /** In every run, whatever fails: one live session per session id, one owner
      per handle, a command accepted exactly from the client whose claim on the
      session stands, and the end of any other client's connection changes
      neither sessions nor owners nor the store. */
  lemma OnlyTheClaimantCommands(store: map<SessionId, Record>, events: seq<Event>)
    requires Runs(Opened(store), events)
    ensures var w := After(Opened(store), events);
            && OneSessionEach(w.state)
            && (forall c, h :: Owns(w.state, c, h) <==> h in w.state.sessions && Claims(w, c, w.state.sessions[h]))
            && (forall c, failing :: c !in w.claims.Values ==>
                  Disconnect(w.state, c, failing) == w.state.(owned := w.state.owned - {c}))
  {
    RunKeepsFenced(Opened(store), events);
    var w := After(Opened(store), events);
    hide After, Runs, Disconnect;
    forall c, failing | c !in w.claims.Values
      ensures Disconnect(w.state, c, failing) == w.state.(owned := w.state.owned - {c})
    {
      DisconnectOfNobody(w, c, failing);
    }
  }

  lemma DisconnectOfNobody(w: World, c: Client, failing: set<SessionId>)
    requires Fenced(w) && c !in w.claims.Values
    ensures Disconnect(w.state, c, failing) == w.state.(owned := w.state.owned - {c})
  {
    assert Abandoned(w.state, c) == {};
    assert AbandonedIds(w.state, {}) == {};
    assert DetachAll(w.state.store, {}, failing) == w.state.store;
  }

  /** A client that has lost one session and holds another leaves the lost one's
      owner and record alone when its connection ends. */
  lemma DisconnectSparesTheLost(store: map<SessionId, Record>, events: seq<Event>, c: Client, h: Handle, failing: set<SessionId>)
    requires Runs(Opened(store), events)
    requires var w := After(Opened(store), events); h in w.state.sessions && !Claims(w, c, w.state.sessions[h])
    ensures var s := After(Opened(store), events).state;
            var next := Disconnect(s, c, failing);
            && (h in next.owners <==> h in s.owners) && (h in s.owners ==> next.owners[h] == s.owners[h])
            && (s.sessions[h] in next.store <==> s.sessions[h] in s.store)
            && (s.sessions[h] in s.store ==> next.store[s.sessions[h]] == s.store[s.sessions[h]])
  {
    RunKeepsFenced(Opened(store), events);
    AbandonedAreClaims(After(Opened(store), events), c);
    OwnsIffClaims(After(Opened(store), events), c, h);
    hide After, Runs, Fenced, AbandonedIds;
  }

  // --------------------------------------------------------- what is stored

  /** The puts this frame makes without asking about the outcome first all
      succeed; a close or a detach that is refused one changes nothing. */
  ghost predicate PutsSucceed(w: World, e: Event) {
    var s := w.state;
    match e
    case StartFrame(_, id, _, _, failing) => StartTakes(s, e) ==> PutSucceeds(s.store, id, true, failing)
    case CommandFrame(_, _) => true
    case CloseFrame(_, _, _) => true
    case DetachFrame(_, _, _) => true
    case Gone(c, failing) => forall id :: id in AbandonedIds(s, Abandoned(s, c)) ==> PutSucceeds(s.store, id, false, failing)
  }

  ghost predicate AllPutsSucceed(w: World, events: seq<Event>)
    requires Runs(w, events)
    decreases |events|
  {
    events != [] ==> PutsSucceed(w, events[0]) && AllPutsSucceed(Step(w, events[0]), events[1..])
  }

  function BaseGeneration(base: map<SessionId, Record>, id: SessionId): nat {
    if id in base then base[id].generation else 0
  }

  /** A session is stored as attached exactly while a claim on it stands, and
      its generation counts its starts on top of what was there. */
  predicate StoredTruly(w: World, base: map<SessionId, Record>, id: SessionId) {
    var store := w.state.store;
    && (id in store && store[id].state == Attached <==> id in w.claims)
    && (id in store <==> id in base || StartsOf(w, id) > 0)
    && (id in store ==> store[id].generation == BaseGeneration(base, id) + StartsOf(w, id))
  }

  ghost predicate StoreIsTrue(w: World, base: map<SessionId, Record>) {
    forall id :: StoredTruly(w, base, id)
  }

  lemma AbandonedAreClaims(w: World, c: Client)
    requires Fenced(w)
    ensures forall id :: id in AbandonedIds(w.state, Abandoned(w.state, c)) <==> Claims(w, c, id)
  {
    var s := w.state;
    forall id
      ensures id in AbandonedIds(s, Abandoned(s, c)) <==> Claims(w, c, id)
    {
      if Claims(w, c, id) {
        assert Live(s, id);
        var h :| h in s.sessions && s.sessions[h] == id;
        assert h in s.owners && s.owners[h] == c;
        assert h in Abandoned(s, c);
      }
    }
  }

  lemma StartKeepsStore(w: World, e: Event, base: map<SessionId, Record>, id: SessionId)
    requires Enabled(w, e) && e.StartFrame? && PutsSucceed(w, e) && StoredTruly(w, base, id)
    ensures StoredTruly(Step(w, e), base, id)
  {
    hide HandleOf;
  }

  lemma ReleaseKeepsStore(w: World, e: Event, base: map<SessionId, Record>, id: SessionId)
    requires Fenced(w) && Enabled(w, e) && (e.CloseFrame? || e.DetachFrame?) && StoredTruly(w, base, id)
    requires Owns(w.state, e.client, e.handle) && e.handle in w.state.sessions ==> StoredTruly(w, base, w.state.sessions[e.handle])
    ensures StoredTruly(Step(w, e), base, id)
  {
    OwnsIffClaims(w, e.client, e.handle);
    hide Fenced, OwnedBy;
  }

  lemma GoneKeepsStore(w: World, e: Event, base: map<SessionId, Record>, id: SessionId)
    requires Fenced(w) && Enabled(w, e) && e.Gone? && PutsSucceed(w, e) && StoredTruly(w, base, id)
    ensures StoredTruly(Step(w, e), base, id)
  {
    AbandonedAreClaims(w, e.client);
    hide Fenced, Abandoned, AbandonedIds;
  }

  lemma StepKeepsStore(w: World, e: Event, base: map<SessionId, Record>)
    requires Fenced(w) && Enabled(w, e) && PutsSucceed(w, e) && StoreIsTrue(w, base)
    ensures StoreIsTrue(Step(w, e), base)
  {
    hide StoredTruly, Fenced, Step, PutsSucceed;
    forall id
      ensures StoredTruly(Step(w, e), base, id)
    {
      assert StoredTruly(w, base, id);
      match e
      case StartFrame(_, _, _, _, _) => StartKeepsStore(w, e, base, id);
      case CommandFrame(_, _) => CommandKeeps(w, e);
      case CloseFrame(_, _, _) => ReleaseKeepsStore(w, e, base, id);
      case DetachFrame(_, _, _) => ReleaseKeepsStore(w, e, base, id);
      case Gone(_, _) => GoneKeepsStore(w, e, base, id);
    }
  }

  lemma CommandKeeps(w: World, e: Event)
    requires e.CommandFrame?
    ensures Step(w, e) == w
  {
  }

  lemma RefusedStartShows(w: World, e: Event, base: map<SessionId, Record>)
    requires e.StartFrame? && !PutsSucceed(w, e) && StoredTruly(w, base, e.id)
    ensures !StoredTruly(Step(w, e), base, e.id)
  {
    hide HandleOf;
  }

  lemma RefusedDetachShows(w: World, e: Event, base: map<SessionId, Record>) returns (id: SessionId)
    requires Fenced(w) && e.Gone? && !PutsSucceed(w, e) && StoreIsTrue(w, base)
    ensures !StoredTruly(Step(w, e), base, id)
  {
    AbandonedAreClaims(w, e.client);
    hide Fenced, Abandoned, AbandonedIds;
    id :| id in AbandonedIds(w.state, Abandoned(w.state, e.client)) && !PutSucceeds(w.state.store, id, false, e.failing);
    assert StoredTruly(w, base, id);
  }

  /** A true store stays true exactly when the frame's unasked puts succeed. */
  lemma StepKeepsStoreIff(w: World, e: Event, base: map<SessionId, Record>)
    requires Fenced(w) && Enabled(w, e) && StoreIsTrue(w, base)
    ensures StoreIsTrue(Step(w, e), base) <==> PutsSucceed(w, e)
  {
    if PutsSucceed(w, e) {
      StepKeepsStore(w, e, base);
    } else if e.StartFrame? {
      assert StoredTruly(w, base, e.id);
      RefusedStartShows(w, e, base);
    } else if e.Gone? {
      var id := RefusedDetachShows(w, e, base);
    }
  }

  ghost predicate StoreStaysTrue(w: World, events: seq<Event>, base: map<SessionId, Record>)
    requires Runs(w, events)
    decreases |events|
  {
    StoreIsTrue(w, base) && (events != [] ==> StoreStaysTrue(Step(w, events[0]), events[1..], base))
  }

  lemma {:induction false} RunKeepsStoreIff(w: World, events: seq<Event>, base: map<SessionId, Record>)
    requires Fenced(w) && StoreIsTrue(w, base) && Runs(w, events)
    ensures StoreStaysTrue(w, events, base) <==> AllPutsSucceed(w, events)
    ensures AllPutsSucceed(w, events) ==> StoreIsTrue(After(w, events), base)
    decreases |events|
  {
    hide StoreIsTrue, PutsSucceed, Step, Enabled, Fenced;
    if events != [] {
      StepKeepsFenced(w, events[0]);
      StepKeepsStoreIff(w, events[0], base);
      if PutsSucceed(w, events[0]) {
        RunKeepsStoreIff(Step(w, events[0]), events[1..], base);
      } else {
        NotTrueNow(Step(w, events[0]), events[1..], base);
      }
    }
  }

  lemma NotTrueNow(w: World, events: seq<Event>, base: map<SessionId, Record>)
    requires Runs(w, events) && !StoreIsTrue(w, base)
    ensures !StoreStaysTrue(w, events, base)
  {
  }

  predicate NoneAttached(base: map<SessionId, Record>) { forall id :: id in base ==> base[id].state != Attached }

  /** All through a run a session is stored as attached exactly while a claim on it
      stands and its generation counts its starts, if and only if none was
      attached to begin with and no start and no lost connection is refused a put. */
  lemma StoreIsTrueThroughout(base: map<SessionId, Record>, events: seq<Event>)
    requires Runs(Opened(base), events)
    ensures StoreStaysTrue(Opened(base), events, base) <==> NoneAttached(base) && AllPutsSucceed(Opened(base), events)
  {
    assert StoreIsTrue(Opened(base), base) <==> NoneAttached(base) by { TrueAtFirst(base); }
    if NoneAttached(base) {
      RunKeepsStoreIff(Opened(base), events, base);
    } else {
      NotTrueNow(Opened(base), events, base);
    }
  }

  lemma TrueAtFirst(base: map<SessionId, Record>)
    ensures StoreIsTrue(Opened(base), base) <==> NoneAttached(base)
  {
    forall id
      ensures StoredTruly(Opened(base), base, id) <==> (id in base ==> base[id].state != Attached)
    {
    }
  }

  /** Where the store takes every such record: a live session is stored as
      attached exactly while it has an owner, and its generation is what it was
      plus the number of starts. */
  lemma StoreFollowsOwnership(base: map<SessionId, Record>, events: seq<Event>)
    requires NoneAttached(base) && Runs(Opened(base), events) && AllPutsSucceed(Opened(base), events)
    ensures var w := After(Opened(base), events);
            && (forall h :: h in w.state.sessions ==>
                  (h in w.state.owners <==>
                     w.state.sessions[h] in w.state.store && w.state.store[w.state.sessions[h]].state == Attached))
            && (forall id :: id in w.state.store ==>
                  w.state.store[id].generation == BaseGeneration(base, id) + StartsOf(w, id))
  {
    RunKeepsFenced(Opened(base), events);
    TrueAtFirst(base);
    RunKeepsStoreIff(Opened(base), events, base);
    var w := After(Opened(base), events);
    hide StoredTruly, Step, Fenced;
    forall id
      ensures id in w.state.store ==> w.state.store[id].generation == BaseGeneration(base, id) + StartsOf(w, id)
      ensures id in w.state.store && w.state.store[id].state == Attached <==> id in w.claims
    {
      assert StoredTruly(w, base, id);
      StoredTrulySays(w, base, id);
    }
    forall h | h in w.state.sessions
      ensures h in w.state.owners <==> w.state.sessions[h] in w.claims
    {
      OwnedIffClaimed(w, h);
    }
  }

  lemma StoredTrulySays(w: World, base: map<SessionId, Record>, id: SessionId)
    requires StoredTruly(w, base, id)
    ensures id in w.state.store ==> w.state.store[id].generation == BaseGeneration(base, id) + StartsOf(w, id)
    ensures id in w.state.store && w.state.store[id].state == Attached <==> id in w.claims
  {
  }

  lemma OwnedIffClaimed(w: World, h: Handle)
    requires Fenced(w) && h in w.state.sessions
    ensures h in w.state.owners <==> w.state.sessions[h] in w.claims
  {
  }

  /** A refused put leaves an owner whose session is not stored as attached. */
  lemma RefusedPutSplitsStoreAndOwner(c: Client, id: SessionId)
    ensures var (s, reply) := Start(Opened(map[]).state, c, id, true, true, {id});
            reply == Error && Owns(s, c, 1) && id !in s.store
  {
  }
}
