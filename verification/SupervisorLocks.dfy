/** The supervisor at the grain of its locks. A frame takes several of them in
    turn, and other clients' frames may come in between: a start looks for a live
    session, begins one if it found none and enters the owner table; a handle is
    given up by a check that it is owned, a look at its session and a removal; and
    each writes its session's record by a get and a put. */
module SupervisorLocks {
  import opened Options
  import opened AgentSupervisor

  /** Why a handle is given up: a detach, a close, or a lost connection. */
  datatype Way = Leaves | Ends | Lost

  /** What follows once a record is written. */
  datatype Then = Done | ThenRemove(handle: Handle, way: Way)

  /** What a client's thread carries from one lock to the next. */
  datatype Hand =
    | Missed(id: SessionId)               // no live session was found
    | Found(id: SessionId, session: Handle)
    | Passed(handle: Handle, way: Way)    // the handle was its own
    | ToGet(id: SessionId, state: RunState, follow: Then)
    | ToPut(id: SessionId, state: RunState, follow: Then, generation: U64)
    | Recorded(handle: Handle, way: Way, of: Option<SessionId>)  // the removal is to come
    | Removed(handle: Handle, of: Option<SessionId>)  // a lost handle is removed, its record is to come

  datatype Fine = Fine(world: World, hand: map<Client, Hand>)

  datatype Move =
    | Find(client: Client, id: SessionId)
    | Miss(client: Client, id: SessionId)
    | Begin(client: Client, starts: bool)
    | Enter(client: Client)
    | Check(client: Client, handle: Handle, way: Way)
    | Look(client: Client)
    | Get(client: Client, ok: bool)
    | Put(client: Client, ok: bool)
    | Remove(client: Client)
    | Vanish(client: Client)

  predicate Free(f: Fine, c: Client) { c !in f.hand && c !in f.world.gone }

  ghost predicate CanTake(f: Fine, e: Move) {
    var c := e.client;
    match e
    case Find(_, id) => Free(f, c) && HandleOf(f.world.state, id).Some?
    case Miss(_, id) => Free(f, c) && !Live(f.world.state, id)
    case Begin(_, _) => c in f.hand && f.hand[c].Missed?
    case Enter(_) => c in f.hand && f.hand[c].Found? && c !in f.world.gone
    case Check(_, h, _) => Free(f, c) && Owns(f.world.state, c, h)
    case Look(_) => c in f.hand && ((f.hand[c].Passed? && f.hand[c].way != Lost) || f.hand[c].Removed?)
    case Get(_, _) => c in f.hand && f.hand[c].ToGet?
    case Put(_, _) => c in f.hand && f.hand[c].ToPut?
    case Remove(_) => c in f.hand && (f.hand[c].Recorded? || (f.hand[c].Passed? && f.hand[c].way == Lost))
    case Vanish(_) => Free(f, c) && forall h :: !Owns(f.world.state, c, h)
  }

  /** The session begins under the next handle, whatever happened since the miss;
      when it cannot begin only the counter moves. */
  function BegunBy(w: World, id: SessionId, starts: bool): World {
    if starts then Begun(w, id) else w.(state := w.state.(counter := w.state.counter + 1))
  }

  /** The client enters the owner table, whatever happened to the session since. */
  function EnteredBy(w: World, c: Client, id: SessionId, h: Handle): World {
    Adopted(w, c, id, h, w.state.store).(starts := w.starts[id := StartsOf(w, id) + 1])
  }

  /** The handle leaves the owner table, and a closed one the registry, with no
      second look at its owner. The client's own claim goes, if it has one. */
  function RemovedFrom(w: World, c: Client, h: Handle, way: Way): World {
    var s := w.state;
    w.(state := s.(sessions := if way == Ends then s.sessions - {h} else s.sessions,
                   owners := s.owners - {h}, owned := s.owned[c := OwnedBy(s, c) - {h}]),
       claims := if h in s.sessions && Claims(w, c, s.sessions[h]) then w.claims - {s.sessions[h]} else w.claims)
  }

  function SessionOf(s: State, h: Handle): Option<SessionId> { if h in s.sessions then Some(s.sessions[h]) else None }

  function StateAfter(way: Way): RunState { if way == Ends then Stopped else Detached }

  /** Whether a put goes through: the store may refuse, and a column is signed. */
  predicate GoesIn(hand: Hand, ok: bool)
    requires hand.ToPut?
  {
    ok && hand.generation <= I64_MAX
  }

  function Stored(w: World, hand: Hand): World
    requires hand.ToPut?
  {
    w.(state := w.state.(store := w.state.store[hand.id := Record(hand.generation, hand.state)]))
  }

  function WithHand(f: Fine, c: Client, hand: Hand): Fine { f.(hand := f.hand[c := hand]) }
  function EmptyHanded(f: Fine, c: Client): Fine { f.(hand := f.hand - {c}) }

  ghost function Take(f: Fine, e: Move): Fine
    requires CanTake(f, e)
  {
    var c, w := e.client, f.world;
    match e
    case Find(_, id) => WithHand(f, c, Found(id, HandleOf(w.state, id).value))
    case Miss(_, id) => WithHand(f, c, Missed(id))
    case Begin(_, starts) =>
      var next := f.(world := BegunBy(w, f.hand[c].id, starts));
      if starts then WithHand(next, c, Found(f.hand[c].id, w.state.counter + 1)) else EmptyHanded(next, c)
    case Enter(_) =>
      WithHand(f.(world := EnteredBy(w, c, f.hand[c].id, f.hand[c].session)), c, ToGet(f.hand[c].id, Attached, Done))
    case Check(_, h, way) => WithHand(f, c, Passed(h, way))
    case Look(_) => Looked(f, c)
    case Get(_, ok) =>
      var hand := f.hand[c];
      if ok then WithHand(f, c, ToPut(hand.id, hand.state, hand.follow, NextGeneration(w.state.store, hand.id, hand.state == Attached)))
      else EmptyHanded(f, c)
    case Put(_, ok) => if GoesIn(f.hand[c], ok) then PutThrough(f, c) else EmptyHanded(f, c)
    case Remove(_) =>
      var h, way := f.hand[c].handle, f.hand[c].way;
      var next := f.(world := RemovedFrom(w, c, h, way));
      if way == Lost then WithHand(next, c, Removed(h, SessionOf(w.state, h))) else EmptyHanded(next, c)
    case Vanish(_) => f.(world := Step(w, Gone(c, {})))
  }

  /** A handle without a session has no record to write. */
  function Looked(f: Fine, c: Client): Fine
    requires c in f.hand && (f.hand[c].Passed? || f.hand[c].Removed?)
  {
    var h := f.hand[c].handle;
    match SessionOf(f.world.state, h)
    case None => if f.hand[c].Removed? then EmptyHanded(f, c) else WithHand(f, c, Recorded(h, f.hand[c].way, None))
    case Some(id) =>
      WithHand(f, c, if f.hand[c].Removed? then ToGet(id, Detached, Done)
                     else ToGet(id, StateAfter(f.hand[c].way), ThenRemove(h, f.hand[c].way)))
  }

  function PutThrough(f: Fine, c: Client): Fine
    requires c in f.hand && f.hand[c].ToPut?
  {
    var next := f.(world := Stored(f.world, f.hand[c]));
    match f.hand[c].follow
    case Done => EmptyHanded(next, c)
    case ThenRemove(h, way) => WithHand(next, c, Recorded(h, way, Some(f.hand[c].id)))
  }

  ghost predicate CanRun(f: Fine, moves: seq<Move>)
    decreases |moves|
  {
    moves != [] ==> CanTake(f, moves[0]) && CanRun(Take(f, moves[0]), moves[1..])
  }

  ghost function Ran(f: Fine, moves: seq<Move>): Fine
    requires CanRun(f, moves)
    decreases |moves|
  {
    if moves == [] then f else Ran(Take(f, moves[0]), moves[1..])
  }

  function FirstOf(store: map<SessionId, Record>): Fine { Fine(Opened(store), map[]) }

  // ------------------------------------------------------ which moves are safe

  /** Somebody else owns the handle by now. */
  predicate Robs(s: State, c: Client, h: Handle) { h in s.owners && s.owners[h] != c }

  lemma StoringKeepsFenced(w: World, hand: Hand)
    requires Fenced(w) && hand.ToPut?
    ensures Fenced(Stored(w, hand))
  {
    assert forall i :: Live(Stored(w, hand).state, i) <==> Live(w.state, i);
  }

  lemma BeginBesideBreaks(w: World, id: SessionId)
    requires OneSessionEach(w.state) && Live(w.state, id)
    ensures !OneSessionEach(Begun(w, id).state)
  {
    var next := Begun(w, id);
    var h :| h in w.state.sessions && w.state.sessions[h] == id;
    assert next.state.sessions[h] == next.state.sessions[w.state.counter + 1];
  }

  lemma FencedHasOneEach(w: World)
    requires Fenced(w)
    ensures OneSessionEach(w.state)
  {
  }

  /** Beginning keeps one session per id exactly when none of that id is live by then. */
  lemma BeginIsSafeIff(w: World, id: SessionId, starts: bool)
    requires Fenced(w)
    ensures OneSessionEach(BegunBy(w, id, starts).state) <==> (starts ==> !Live(w.state, id))
    ensures Fenced(BegunBy(w, id, starts)) <==> (starts ==> !Live(w.state, id))
  {
    hide Fenced, OneSessionEach, Live, Begun;
    FencedHasOneEach(w);
    if !starts {
      CountKeepsFenced(w);
    } else if Live(w.state, id) {
      BeginBesideBreaks(w, id);
    } else {
      BeginKeepsFenced(w, id);
    }
    if Fenced(BegunBy(w, id, starts)) {
      FencedHasOneEach(BegunBy(w, id, starts));
    }
  }

  lemma EnteringTheDeadBreaks(w: World, c: Client, id: SessionId, h: Handle)
    requires h !in w.state.sessions
    ensures !Fenced(EnteredBy(w, c, id, h))
  {
    assert h in EnteredBy(w, c, id, h).state.owners;
  }

  /** Entering the owner table keeps the fence exactly when the session found is
      still there. */
  lemma EnterIsSafeIff(w: World, c: Client, id: SessionId, h: Handle)
    requires Fenced(w) && c !in w.gone && (h in w.state.sessions ==> w.state.sessions[h] == id)
    ensures Fenced(EnteredBy(w, c, id, h)) <==> h in w.state.sessions
  {
    hide Fenced, Adopted;
    if h in w.state.sessions {
      AdoptKeepsFenced(w, c, id, h, w.state.store);
      StartsDoNotMatter(Adopted(w, c, id, h, w.state.store), EnteredBy(w, c, id, h).starts);
    } else {
      EnteringTheDeadBreaks(w, c, id, h);
    }
  }

  lemma RobbingBreaksFence(w: World, c: Client, h: Handle, way: Way)
    requires Fenced(w) && Robs(w.state, c, h)
    ensures !Fenced(RemovedFrom(w, c, h, way))
  {
    var next := RemovedFrom(w, c, h, way);
    var id := w.state.sessions[h];
    assert id in next.claims;
    if way == Ends {
      assert !Live(next.state, id);
    } else {
      assert h in next.state.sessions && h !in next.state.owners;
    }
  }

  lemma RemovingOwnKeepsFence(w: World, c: Client, h: Handle, way: Way)
    requires Fenced(w) && Owns(w.state, c, h)
    ensures Fenced(RemovedFrom(w, c, h, way))
  {
    OwnsIffClaims(w, c, h);
    LetGoKeepsFenced(w, c, h, way == Ends, w.state.store);
    hide Fenced, OwnedBy;
  }

  lemma RemovingUnownedKeepsFence(w: World, c: Client, h: Handle, way: Way)
    requires Fenced(w) && h !in w.state.owners
    ensures Fenced(RemovedFrom(w, c, h, way))
  {
    var next := RemovedFrom(w, c, h, way);
    assert next.claims == w.claims && next.state.owners == w.state.owners;
    forall id | id in next.claims
      ensures Live(next.state, id)
    {
      assert Live(w.state, id);
      var g :| g in w.state.sessions && w.state.sessions[g] == id;
      assert g != h;
      assert next.state.sessions[g] == id;
    }
  }

  /** Removing a handle after a passed check keeps the fence exactly when it is
      unowned or still the same client's at the removal. */
  lemma RemoveIsSafeIff(w: World, c: Client, h: Handle, way: Way)
    requires Fenced(w)
    ensures Fenced(RemovedFrom(w, c, h, way)) <==> !Robs(w.state, c, h)
  {
    hide Fenced, RemovedFrom;
    if Robs(w.state, c, h) {
      RobbingBreaksFence(w, c, h, way);
    } else if h in w.state.owners {
      RemovingOwnKeepsFence(w, c, h, way);
    } else {
      RemovingUnownedKeepsFence(w, c, h, way);
    }
  }

  // -------------------------------------------------------------- what hands know

  /** The session a hand is about, as far as its handle is concerned. */
  predicate HandKnows(s: State, hand: Hand) {
    match hand
    case Found(id, h) => h <= s.counter && (h in s.sessions ==> s.sessions[h] == id)
    case Passed(h, _) => h <= s.counter
    case ToGet(id, state, ThenRemove(h, _)) => state != Attached && h <= s.counter && (h in s.sessions ==> s.sessions[h] == id)
    case ToPut(id, state, ThenRemove(h, _), _) => state != Attached && h <= s.counter && (h in s.sessions ==> s.sessions[h] == id)
    case Recorded(h, _, of) => h <= s.counter && (h in s.sessions ==> of == Some(s.sessions[h]))
    case Removed(h, of) => h <= s.counter && (h in s.sessions ==> of == Some(s.sessions[h]))
    case _ => true
  }

  /** Handles are drawn in order and never name another session later on. */
  ghost predicate Known(f: Fine) {
    && (forall h :: h in f.world.state.sessions ==> h <= f.world.state.counter)
    && (forall h :: h in f.world.state.owners ==> h <= f.world.state.counter)
    && (forall c :: c in f.hand ==> HandKnows(f.world.state, f.hand[c]))
  }

  /** Sessions come under the next handle only, and otherwise only go. */
  ghost predicate OnlyNextJoins(s: State, next: State) {
    && s.counter <= next.counter
    && (forall h :: h in next.sessions && h <= s.counter ==> h in s.sessions && next.sessions[h] == s.sessions[h])
    && (forall h :: h in next.sessions ==> h <= s.counter + 1 && (h > s.counter ==> h <= next.counter))
    && (forall h :: h in next.owners ==> h in s.owners || h <= s.counter)
  }

  lemma StillKnows(s: State, next: State, hand: Hand)
    requires HandKnows(s, hand) && OnlyNextJoins(s, next)
    ensures HandKnows(next, hand)
  {
  }

  lemma MoveOnlyNextJoins(f: Fine, e: Move)
    requires Known(f) && CanTake(f, e)
    ensures OnlyNextJoins(f.world.state, Take(f, e).world.state)
  {
    hide HandleOf, Live, OwnedBy, DetachAll;
    match e
    case Enter(c) => assert HandKnows(f.world.state, f.hand[c]);
    case Begin(_, _) =>
    case Put(c, _) => assert Take(f, e).world.state.sessions == f.world.state.sessions;
    case Remove(_) =>
    case Vanish(_) =>
    case Find(_, _) => assert Take(f, e).world == f.world;
    case Miss(_, _) => assert Take(f, e).world == f.world;
    case Check(_, _, _) => assert Take(f, e).world == f.world;
    case Look(_) => assert Take(f, e).world == f.world;
    case Get(_, _) => assert Take(f, e).world == f.world;
  }

  lemma OwnHandKnows(f: Fine, e: Move)
    requires Known(f) && CanTake(f, e) && e.client in Take(f, e).hand
    ensures HandKnows(Take(f, e).world.state, Take(f, e).hand[e.client])
  {
    hide Live, OwnedBy, DetachAll;
    if e.client in f.hand {
      assert HandKnows(f.world.state, f.hand[e.client]);
    }
    if e.Find? {
      HandleOfFinds(f.world.state, e.id);
    }
    hide HandleOf;
  }

  lemma OthersHandsStay(f: Fine, e: Move, c: Client)
    requires CanTake(f, e) && c != e.client
    ensures c in Take(f, e).hand <==> c in f.hand
    ensures c in f.hand ==> Take(f, e).hand[c] == f.hand[c]
  {
    hide Live, OwnedBy, DetachAll, HandleOf;
  }

  lemma MoveKeepsKnown(f: Fine, e: Move)
    requires Known(f) && CanTake(f, e)
    ensures Known(Take(f, e))
  {
    MoveOnlyNextJoins(f, e);
    var next := Take(f, e);
    hide CanTake, Take, HandKnows;
    forall c | c in next.hand
      ensures HandKnows(next.world.state, next.hand[c])
    {
      if c == e.client {
        OwnHandKnows(f, e);
      } else {
        OthersHandsStay(f, e, c);
        StillKnows(f.world.state, next.world.state, f.hand[c]);
      }
    }
  }

  // -------------------------------------------------------------- ownership

  /** What another client did between two locks does not matter to this move. */
  ghost predicate Safe(f: Fine, e: Move)
    requires CanTake(f, e)
  {
    match e
    case Begin(c, starts) => starts ==> !Live(f.world.state, f.hand[c].id)
    case Enter(c) => f.hand[c].session in f.world.state.sessions
    case Remove(c) => !Robs(f.world.state, c, f.hand[c].handle)
    case _ => true
  }

  lemma VanishKeepsFenced(w: World, c: Client)
    requires Fenced(w) && c !in w.gone
    ensures Fenced(Step(w, Gone(c, {})))
  {
    GoneKeepsFenced(w, Gone(c, {}));
  }

  lemma MoveKeepsFencedIff(f: Fine, e: Move)
    requires Fenced(f.world) && Known(f) && CanTake(f, e)
    ensures Fenced(Take(f, e).world) <==> Safe(f, e)
  {
    hide Fenced, RemovedFrom, Stored, BegunBy, EnteredBy, Step, Robs, Live, HandleOf;
    match e
    case Begin(c, starts) => BeginIsSafeIff(f.world, f.hand[c].id, starts);
    case Enter(c) =>
      assert HandKnows(f.world.state, f.hand[c]);
      EnterIsSafeIff(f.world, c, f.hand[c].id, f.hand[c].session);
    case Put(c, _) => StoringKeepsFenced(f.world, f.hand[c]);
    case Remove(c) => RemoveIsSafeIff(f.world, c, f.hand[c].handle, f.hand[c].way);
    case Vanish(c) => VanishKeepsFenced(f.world, c);
    case Find(_, _) =>
    case Miss(_, _) =>
    case Check(_, _, _) =>
    case Look(_) =>
    case Get(_, _) =>
  }

  ghost predicate StaysFenced(f: Fine, moves: seq<Move>)
    requires CanRun(f, moves)
    decreases |moves|
  {
    Fenced(f.world) && (moves != [] ==> StaysFenced(Take(f, moves[0]), moves[1..]))
  }

  ghost predicate AllSafe(f: Fine, moves: seq<Move>)
    requires CanRun(f, moves)
    decreases |moves|
  {
    moves != [] ==> Safe(f, moves[0]) && AllSafe(Take(f, moves[0]), moves[1..])
  }

  lemma {:induction false} FencedIffSafe(f: Fine, moves: seq<Move>)
    requires Fenced(f.world) && Known(f) && CanRun(f, moves)
    ensures StaysFenced(f, moves) <==> AllSafe(f, moves)
    decreases |moves|
  {
    hide Fenced, Known, Take, Safe, CanTake;
    if moves != [] {
      MoveKeepsFencedIff(f, moves[0]);
      MoveKeepsKnown(f, moves[0]);
      if Safe(f, moves[0]) {
        FencedIffSafe(Take(f, moves[0]), moves[1..]);
      } else {
        assert !StaysFenced(Take(f, moves[0]), moves[1..]);
      }
    }
  }

  /** In every interleaving of the locks owners and claims agree throughout if and
      only if no session is begun beside a live one of its id, none is entered that
      is gone by then, and no removal finds another owner. */
  lemma OwnershipSurvivesIff(store: map<SessionId, Record>, moves: seq<Move>)
    requires CanRun(FirstOf(store), moves)
    ensures StaysFenced(FirstOf(store), moves) <==> AllSafe(FirstOf(store), moves)
  {
    FencedIffSafe(FirstOf(store), moves);
  }
}
