/** Runs of the supervisor's locks: each frame on its own does what the whole
    frame does, and the interleavings in which two frames spoil each other. */
module SupervisorRaces {
  import opened Options
  import opened AgentSupervisor
  import opened SupervisorLocks
  import opened SupervisorRecords

  lemma FirstMove(f: Fine, e: Move, moves: seq<Move>)
    requires CanTake(f, e) && CanRun(Take(f, e), moves)
    ensures CanRun(f, [e] + moves) && Ran(f, [e] + moves) == Ran(Take(f, e), moves)
  {
    assert ([e] + moves)[1..] == moves;
  }

  lemma NoMoves(f: Fine)
    ensures CanRun(f, []) && Ran(f, []) == f
  {
  }

  lemma {:induction false} RunOn(f: Fine, first: seq<Move>, second: seq<Move>)
    requires CanRun(f, first) && CanRun(Ran(f, first), second)
    ensures CanRun(f, first + second) && Ran(f, first + second) == Ran(Ran(f, first), second)
    decreases |first|
  {
    hide Take, CanTake;
    if first == [] {
      assert first + second == second;
    } else {
      RunOn(Take(f, first[0]), first[1..], second);
      assert first + second == [first[0]] + (first[1..] + second);
      FirstMove(f, first[0], first[1..] + second);
    }
  }

  // -------------------------------------------------------- frames on their own

  function Refusing(id: SessionId, ok: bool): set<SessionId> { if ok then {} else {id} }

  ghost function StartMoves(f: Fine, c: Client, id: SessionId, ok: bool): seq<Move> {
    (if HandleOf(f.world.state, id).Some? then [Find(c, id)] else [Miss(c, id), Begin(c, true)])
    + [Enter(c), Get(c, true), Put(c, ok)]
  }

  /** A start either finds the live session of its id or finds none, and which of the
      two depends on nothing but the registry. */
  lemma FindsOrMisses(f: Fine, c: Client, id: SessionId)
    requires Free(f, c)
    ensures CanTake(f, Find(c, id)) <==> exists h :: h in f.world.state.sessions && f.world.state.sessions[h] == id
    ensures CanTake(f, Miss(c, id)) <==> !CanTake(f, Find(c, id))
    ensures CanTake(f, Find(c, id)) ==>
              var next := Take(f, Find(c, id));
              next.world == f.world && c in next.hand && next.hand[c].Found? && next.hand[c].id == id
              && next.hand[c].session in f.world.state.sessions && f.world.state.sessions[next.hand[c].session] == id
  {
    HandleOfFinds(f.world.state, id);
  }

  /** The world of a start once its record is written. */
  function StartedIn(w: World, c: Client, id: SessionId, h: Handle, ok: bool): World {
    Adopted(w, c, id, h, SetRuntimeState(w.state.store, id, Attached, true, Refusing(id, ok))).(starts := w.starts[id := StartsOf(w, id) + 1])
  }

  lemma EnterSteps(f: Fine, c: Client, id: SessionId, h: Handle, ok: bool, rest: map<Client, Hand>) returns (f1: Fine, f2: Fine)
    requires f.hand == rest[c := Found(id, h)] && c !in rest && c !in f.world.gone
    ensures CanTake(f, Enter(c)) && f1 == Take(f, Enter(c))
    ensures CanTake(f1, Get(c, true)) && f2 == Take(f1, Get(c, true))
    ensures CanTake(f2, Put(c, ok)) && Take(f2, Put(c, ok)) == Fine(StartedIn(f.world, c, id, h, ok), rest)
  {
    hide OwnedBy;
    f1 := Take(f, Enter(c));
    f2 := Take(f1, Get(c, true));
    assert Take(f2, Put(c, ok)).hand == rest;
  }

  /** From the table entry on. */
  lemma EnteredAlone(f: Fine, c: Client, id: SessionId, h: Handle, ok: bool, rest: map<Client, Hand>)
    requires f.hand == rest[c := Found(id, h)] && c !in rest && c !in f.world.gone
    ensures var moves := [Enter(c), Get(c, true), Put(c, ok)];
            CanRun(f, moves) && Ran(f, moves) == Fine(StartedIn(f.world, c, id, h, ok), rest)
  {
    hide Take, CanTake, CanRun, Ran, StartedIn;
    var f1, f2 := EnterSteps(f, c, id, h, ok, rest);
    NoMoves(Take(f2, Put(c, ok)));
    FirstMove(f2, Put(c, ok), []);
    FirstMove(f1, Get(c, true), [Put(c, ok)] + []);
    FirstMove(f, Enter(c), [Get(c, true)] + ([Put(c, ok)] + []));
    assert [Enter(c)] + ([Get(c, true)] + ([Put(c, ok)] + [])) == [Enter(c), Get(c, true), Put(c, ok)];
  }

  lemma StartIs(w: World, c: Client, id: SessionId, ok: bool)
    ensures Step(w, StartFrame(c, id, true, true, Refusing(id, ok)))
         == match HandleOf(w.state, id)
            case Some(h) => StartedIn(w, c, id, h, ok)
            case None => StartedIn(Begun(w, id), c, id, w.state.counter + 1, ok)
  {
    hide HandleOf, SetRuntimeState, OwnedBy;
  }

  lemma FindStep(f: Fine, c: Client, id: SessionId)
    requires Free(f, c) && HandleOf(f.world.state, id).Some?
    ensures CanTake(f, Find(c, id)) && Take(f, Find(c, id)) == f.(hand := f.hand[c := Found(id, HandleOf(f.world.state, id).value)])
  {
    hide HandleOf;
  }

  lemma MissAndBegin(f: Fine, c: Client, id: SessionId) returns (f1: Fine)
    requires Free(f, c) && !Live(f.world.state, id)
    ensures CanTake(f, Miss(c, id)) && f1 == Take(f, Miss(c, id))
    ensures CanTake(f1, Begin(c, true))
    ensures Take(f1, Begin(c, true)) == Fine(Begun(f.world, id), f.hand[c := Found(id, f.world.state.counter + 1)])
  {
    hide Live;
    f1 := Take(f, Miss(c, id));
    assert f1.hand[c := Found(id, f.world.state.counter + 1)] == f.hand[c := Found(id, f.world.state.counter + 1)];
  }

  /** A start nothing comes between is the whole start frame. */
  lemma StartAlone(f: Fine, c: Client, id: SessionId, ok: bool)
    requires Free(f, c)
    ensures CanRun(f, StartMoves(f, c, id, ok))
    ensures Ran(f, StartMoves(f, c, id, ok)) == f.(world := Step(f.world, StartFrame(c, id, true, true, Refusing(id, ok))))
  {
    HandleOfFinds(f.world.state, id);
    StartIs(f.world, c, id, ok);
    hide Take, CanTake, CanRun, Ran, HandleOf, StartedIn, Step, Live;
    var tail := [Enter(c), Get(c, true), Put(c, ok)];
    match HandleOf(f.world.state, id)
    case Some(h) =>
      FindStep(f, c, id);
      EnteredAlone(Take(f, Find(c, id)), c, id, h, ok, f.hand);
      FirstMove(f, Find(c, id), tail);
    case None =>
      var f1 := MissAndBegin(f, c, id);
      EnteredAlone(Take(f1, Begin(c, true)), c, id, f.world.state.counter + 1, ok, f.hand);
      FirstMove(f1, Begin(c, true), tail);
      FirstMove(f, Miss(c, id), [Begin(c, true)] + tail);
      assert [Miss(c, id)] + ([Begin(c, true)] + tail) == [Miss(c, id), Begin(c, true)] + tail;
  }

  ghost function GiveUpMoves(f: Fine, c: Client, h: Handle, way: Way, ok: bool): seq<Move>
    requires h in f.world.state.sessions
  {
    [Check(c, h, way), Look(c), Get(c, true), Put(c, ok)]
    + if PutSucceeds(f.world.state.store, f.world.state.sessions[h], false, Refusing(f.world.state.sessions[h], ok)) then [Remove(c)] else []
  }

  ghost function GiveUpFrame(f: Fine, c: Client, h: Handle, way: Way, ok: bool): Event
    requires h in f.world.state.sessions
  {
    if way == Ends then CloseFrame(c, h, Refusing(f.world.state.sessions[h], ok))
    else DetachFrame(c, h, Refusing(f.world.state.sessions[h], ok))
  }

  lemma GiveUpToPut(f: Fine, c: Client, h: Handle, way: Way) returns (f1: Fine, f2: Fine, f3: Fine)
    requires Free(f, c) && Owns(f.world.state, c, h) && h in f.world.state.sessions && way != Lost
    ensures CanTake(f, Check(c, h, way)) && f1 == Take(f, Check(c, h, way))
    ensures CanTake(f1, Look(c)) && f2 == Take(f1, Look(c))
    ensures CanTake(f2, Get(c, true)) && f3 == Take(f2, Get(c, true))
    ensures var id := f.world.state.sessions[h];
            f3 == f.(hand := f.hand[c := ToPut(id, StateAfter(way), ThenRemove(h, way), NextGeneration(f.world.state.store, id, false))])
  {
    hide NextGeneration;
    f1 := Take(f, Check(c, h, way));
    f2 := Take(f1, Look(c));
    f3 := Take(f2, Get(c, true));
    var id := f.world.state.sessions[h];
    assert f3.hand == f.hand[c := ToPut(id, StateAfter(way), ThenRemove(h, way), NextGeneration(f.world.state.store, id, false))];
  }

  /** The give-up frame's record, put; the handle is still in the owner table. */
  function RecordedIn(f: Fine, c: Client, h: Handle, way: Way): Fine
    requires h in f.world.state.sessions
  {
    var s, id := f.world.state, f.world.state.sessions[h];
    Fine(f.world.(state := s.(store := s.store[id := Record(NextGeneration(s.store, id, false), StateAfter(way))])),
         f.hand[c := Recorded(h, way, Some(id))])
  }

  lemma GiveUpPuts(f: Fine, c: Client, h: Handle, way: Way, ok: bool, f3: Fine)
    requires Free(f, c) && Owns(f.world.state, c, h) && h in f.world.state.sessions && way != Lost
    requires var id := f.world.state.sessions[h];
             f3 == f.(hand := f.hand[c := ToPut(id, StateAfter(way), ThenRemove(h, way), NextGeneration(f.world.state.store, id, false))])
    ensures CanTake(f3, Put(c, ok))
    ensures Take(f3, Put(c, ok))
         == if PutSucceeds(f.world.state.store, f.world.state.sessions[h], false, Refusing(f.world.state.sessions[h], ok)) then RecordedIn(f, c, h, way)
            else f.(world := Step(f.world, GiveUpFrame(f, c, h, way, ok)))
  {
    hide NextGeneration, OwnedBy;
    var f4 := Take(f3, Put(c, ok));
    if PutSucceeds(f.world.state.store, f.world.state.sessions[h], false, Refusing(f.world.state.sessions[h], ok)) {
      assert f4.hand == RecordedIn(f, c, h, way).hand;
    } else {
      assert f4.hand == f.hand;
    }
  }

  lemma GiveUpRemoves(f: Fine, c: Client, h: Handle, way: Way, ok: bool)
    requires Free(f, c) && Owns(f.world.state, c, h) && h in f.world.state.sessions && way != Lost
    requires PutSucceeds(f.world.state.store, f.world.state.sessions[h], false, Refusing(f.world.state.sessions[h], ok))
    ensures CanTake(RecordedIn(f, c, h, way), Remove(c))
    ensures Take(RecordedIn(f, c, h, way), Remove(c)) == f.(world := Step(f.world, GiveUpFrame(f, c, h, way, ok)))
  {
    hide NextGeneration;
    var next, want := Take(RecordedIn(f, c, h, way), Remove(c)), Step(f.world, GiveUpFrame(f, c, h, way, ok));
    assert next.hand == f.hand;
    assert next.world.state.sessions == want.state.sessions;
    assert next.world.state.owners == want.state.owners && next.world.state.owned == want.state.owned;
    assert next.world.state.store == want.state.store && next.world.claims == want.claims;
  }

  /** A detach or a close nothing comes between is the whole frame. */
  lemma GiveUpAlone(f: Fine, c: Client, h: Handle, way: Way, ok: bool)
    requires Free(f, c) && Owns(f.world.state, c, h) && h in f.world.state.sessions && way != Lost
    ensures CanRun(f, GiveUpMoves(f, c, h, way, ok))
    ensures Ran(f, GiveUpMoves(f, c, h, way, ok)) == f.(world := Step(f.world, GiveUpFrame(f, c, h, way, ok)))
  {
    hide Take, CanTake, CanRun, Ran, Step, GiveUpFrame, PutSucceeds, NextGeneration, RecordedIn;
    var f1, f2, f3 := GiveUpToPut(f, c, h, way);
    GiveUpPuts(f, c, h, way, ok, f3);
    var f4 := Take(f3, Put(c, ok));
    var last := [];
    if PutSucceeds(f.world.state.store, f.world.state.sessions[h], false, Refusing(f.world.state.sessions[h], ok)) {
      GiveUpRemoves(f, c, h, way, ok);
      NoMoves(Take(f4, Remove(c)));
      FirstMove(f4, Remove(c), []);
      last := [Remove(c)];
      assert [Remove(c)] + [] == last;
    } else {
      NoMoves(f4);
    }
    FirstMove(f3, Put(c, ok), last);
    FirstMove(f2, Get(c, true), [Put(c, ok)] + last);
    FirstMove(f1, Look(c), [Get(c, true)] + ([Put(c, ok)] + last));
    FirstMove(f, Check(c, h, way), [Look(c)] + ([Get(c, true)] + ([Put(c, ok)] + last)));
    assert [Check(c, h, way)] + ([Look(c)] + ([Get(c, true)] + ([Put(c, ok)] + last))) == GiveUpMoves(f, c, h, way, ok);
  }

  /** An owned handle whose session is gone is given up all the same, with no record. */
  lemma GiveUpOfTheGone(f: Fine, c: Client, h: Handle, way: Way)
    requires Free(f, c) && Owns(f.world.state, c, h) && h !in f.world.state.sessions && way != Lost
    ensures var moves, frame := [Check(c, h, way), Look(c), Remove(c)], if way == Ends then CloseFrame(c, h, {}) else DetachFrame(c, h, {});
            CanRun(f, moves) && Ran(f, moves) == f.(world := Step(f.world, frame))
  {
    var frame := if way == Ends then CloseFrame(c, h, {}) else DetachFrame(c, h, {});
    var f1 := Take(f, Check(c, h, way));
    var f2 := Take(f1, Look(c));
    assert f2 == f.(hand := f.hand[c := Recorded(h, way, None)]);
    var f3 := Take(f2, Remove(c));
    assert f3.hand == f.hand && f3.world == Step(f.world, frame);
    hide Take, CanTake, CanRun, Ran, Step;
    ThreeMoves(f, Check(c, h, way), Look(c), Remove(c));
  }

  lemma LostToGet(f: Fine, c: Client, h: Handle) returns (f1: Fine, f2: Fine, f3: Fine)
    requires Free(f, c) && Owns(f.world.state, c, h) && h in f.world.state.sessions
    ensures CanTake(f, Check(c, h, Lost)) && f1 == Take(f, Check(c, h, Lost))
    ensures CanTake(f1, Remove(c)) && f2 == Take(f1, Remove(c)) && CanTake(f2, Look(c)) && f3 == Take(f2, Look(c))
    ensures f3 == Fine(RemovedFrom(f.world, c, h, Lost), f.hand[c := ToGet(f.world.state.sessions[h], Detached, Done)])
  {
    hide OwnedBy;
    f1 := Take(f, Check(c, h, Lost));
    f2 := Take(f1, Remove(c));
    f3 := Take(f2, Look(c));
    assert f3.hand == f.hand[c := ToGet(f.world.state.sessions[h], Detached, Done)];
  }

  lemma LostIsStored(w: World, c: Client, h: Handle, ok: bool, hands: map<Client, Hand>)
    requires c !in hands && h in w.state.sessions
    ensures var id, f3 := w.state.sessions[h], Fine(RemovedFrom(w, c, h, Lost), hands[c := ToGet(w.state.sessions[h], Detached, Done)]);
            && CanTake(f3, Get(c, true)) && CanTake(Take(f3, Get(c, true)), Put(c, ok))
            && var r := Take(Take(f3, Get(c, true)), Put(c, ok));
               && r.hand == hands && r.world.state.owners == w.state.owners - {h} && r.world.state.sessions == w.state.sessions
               && r.world.state.store == SetRuntimeState(w.state.store, id, Detached, false, Refusing(id, ok))
  {
    hide OwnedBy;
    var id, f3 := w.state.sessions[h], Fine(RemovedFrom(w, c, h, Lost), hands[c := ToGet(w.state.sessions[h], Detached, Done)]);
    var f4 := Take(f3, Get(c, true));
    assert f4.hand == hands[c := ToPut(id, Detached, Done, NextGeneration(w.state.store, id, false))];
    hide NextGeneration;
    assert Take(f4, Put(c, ok)).hand == hands;
  }

  /** A lost handle nothing comes between ends without an owner, its session left
      running and recorded as detached as far as the store takes that. */
  lemma LoseAlone(f: Fine, c: Client, h: Handle, ok: bool)
    requires Free(f, c) && Owns(f.world.state, c, h) && h in f.world.state.sessions
    ensures var moves, id, s := [Check(c, h, Lost), Remove(c), Look(c)] + [Get(c, true), Put(c, ok)], f.world.state.sessions[h], f.world.state;
            && CanRun(f, moves)
            && var r := Ran(f, moves);
               && r.hand == f.hand && r.world.state.owners == s.owners - {h} && r.world.state.sessions == s.sessions
               && r.world.state.store == SetRuntimeState(s.store, id, Detached, false, Refusing(id, ok))
  {
    assert c !in f.hand;
    hide *;
    var f1, f2, f3 := LostToGet(f, c, h);
    LostIsStored(f.world, c, h, ok, f.hand);
    ThreeMoves(f, Check(c, h, Lost), Remove(c), Look(c));
    TwoMoves(f3, Get(c, true), Put(c, ok));
    RunOn(f, [Check(c, h, Lost), Remove(c), Look(c)], [Get(c, true), Put(c, ok)]);
  }

  // ------------------------------------------------------- frames in each other's way

  function FreshStart(c: Client, id: SessionId): seq<Move> { [Miss(c, id), Begin(c, true), Enter(c), Get(c, true), Put(c, true)] }

  function JoiningStart(c: Client, id: SessionId): seq<Move> { [Find(c, id), Enter(c), Get(c, true), Put(c, true)] }

  /** One session, owned by `d` after `starts` starts and recorded as `state`. */
  function Held(d: Client, id: SessionId, starts: nat, mine: map<Client, set<Handle>>, state: RunState): World
    requires starts <= 2
  {
    World(State(map[1 := id], 1, map[1 := d], mine, map[id := Record(starts, state)]), map[id := d], map[id := starts], {})
  }

  function HeldBy(c: Client, id: SessionId): World { Held(c, id, 1, map[c := {1}], Attached) }

  function TakenOver(c: Client, d: Client, id: SessionId): World { Held(d, id, 2, map[c := {1}, d := {1}], Attached) }

  lemma FirstStart(c: Client, id: SessionId)
    ensures HandleOf(Opened(map[]).state, id) == None
    ensures Step(Opened(map[]), StartFrame(c, id, true, true, {})) == HeldBy(c, id)
  {
    var w := Opened(map[]);
    var next := Step(w, StartFrame(c, id, true, true, {}));
    HandleOfFinds(w.state, id);
    hide HandleOf, Live;
    assert HandleOf(w.state, id) == None;
    assert OwnedBy(w.state, c) + {1} == {1};
    assert next.state.sessions == map[1 := id] && next.state.owners == map[1 := c];
    assert next.state.owned == map[c := {1}] && next.state.store == map[id := Record(1, Attached)];
    assert next.claims == map[id := c] && next.starts == map[id := 1];
  }

  lemma StartsFresh(c: Client, id: SessionId)
    ensures CanRun(FirstOf(map[]), FreshStart(c, id))
    ensures Ran(FirstOf(map[]), FreshStart(c, id)) == Fine(HeldBy(c, id), map[])
  {
    FirstStart(c, id);
    hide Step, CanRun, Ran, HandleOf, Held;
    StartAlone(FirstOf(map[]), c, id, true);
    assert StartMoves(FirstOf(map[]), c, id, true) == FreshStart(c, id);
  }

  /** The one session is found. */
  lemma OneHandle(w: World, id: SessionId)
    requires w.state.sessions == map[1 := id]
    ensures HandleOf(w.state, id) == Some(1)
  {
    HandleOfFinds(w.state, id);
    assert Live(w.state, id) by {
      assert w.state.sessions[1] == id;
    }
  }

  lemma SecondStart(w: World, c: Client, d: Client, id: SessionId)
    requires c != d && w == HeldBy(c, id)
    ensures Step(w, StartFrame(d, id, true, true, {})) == TakenOver(c, d, id)
  {
    OneHandle(w, id);
    var next := Step(w, StartFrame(d, id, true, true, {}));
    hide HandleOf, Live;
    assert OwnedBy(w.state, d) + {1} == {1};
    assert next.state.owners == map[1 := d] && next.state.owned == map[c := {1}, d := {1}];
    assert next.state.store == map[id := Record(2, Attached)] && next.claims == map[id := d] && next.starts == map[id := 2];
  }

  lemma TakesOver(c: Client, d: Client, id: SessionId, hand: map<Client, Hand>)
    requires c != d && d !in hand
    ensures var f := Fine(HeldBy(c, id), hand);
            CanRun(f, JoiningStart(d, id)) && Ran(f, JoiningStart(d, id)) == Fine(TakenOver(c, d, id), hand)
  {
    var f := Fine(HeldBy(c, id), hand);
    OneHandle(f.world, id);
    SecondStart(f.world, c, d, id);
    hide Step, CanRun, Ran, HandleOf;
    StartAlone(f, d, id, true);
    assert StartMoves(f, d, id, true) == JoiningStart(d, id);
  }

  /** The rest of giving up, once somebody else has taken over. */
  function GivingUp(c: Client, way: Way): seq<Move> {
    if way == Lost then [Remove(c), Look(c), Get(c, true), Put(c, true)] else [Look(c), Get(c, true), Put(c, true), Remove(c)]
  }

  ghost predicate Robbed(f: Fine, d: Client, id: SessionId, way: Way) {
    && f.hand == map[] && Claims(f.world, d, id) && !Owns(f.world.state, d, 1)
    && (1 in f.world.state.sessions <==> way != Ends)
    && id in f.world.state.store && f.world.state.store[id] == Record(2, StateAfter(way))
  }

  lemma LosingSteps(c: Client, d: Client, id: SessionId) returns (f1: Fine, f2: Fine, f3: Fine)
    requires c != d
    ensures var f := Fine(TakenOver(c, d, id), map[c := Passed(1, Lost)]);
            && CanTake(f, Remove(c)) && f1 == Take(f, Remove(c)) && CanTake(f1, Look(c)) && f2 == Take(f1, Look(c))
            && CanTake(f2, Get(c, true)) && f3 == Take(f2, Get(c, true))
            && CanTake(f3, Put(c, true)) && Robbed(Take(f3, Put(c, true)), d, id, Lost)
  {
    hide OwnedBy;
    f1 := Take(Fine(TakenOver(c, d, id), map[c := Passed(1, Lost)]), Remove(c));
    f2 := Take(f1, Look(c));
    f3 := Take(f2, Get(c, true));
    assert f3.hand == map[c := ToPut(id, Detached, Done, 2)] && f3.world == f1.world;
    LostPut(f3, c, d, id);
  }

  lemma LostPut(f3: Fine, c: Client, d: Client, id: SessionId)
    requires f3.hand == map[c := ToPut(id, Detached, Done, 2)]
    requires Claims(f3.world, d, id) && !Owns(f3.world.state, d, 1) && 1 in f3.world.state.sessions
    ensures CanTake(f3, Put(c, true)) && Robbed(Take(f3, Put(c, true)), d, id, Lost)
  {
    assert Take(f3, Put(c, true)).hand == map[];
  }

  lemma LeavingToPut(c: Client, d: Client, id: SessionId, way: Way) returns (f1: Fine, f2: Fine)
    requires c != d && way != Lost
    ensures var f := Fine(TakenOver(c, d, id), map[c := Passed(1, way)]);
            CanTake(f, Look(c)) && f1 == Take(f, Look(c)) && CanTake(f1, Get(c, true)) && f2 == Take(f1, Get(c, true))
    ensures f2 == Fine(TakenOver(c, d, id), map[c := ToPut(id, StateAfter(way), ThenRemove(1, way), 2)])
  {
    f1 := Take(Fine(TakenOver(c, d, id), map[c := Passed(1, way)]), Look(c));
    f2 := Take(f1, Get(c, true));
    assert f2.hand == map[c := ToPut(id, StateAfter(way), ThenRemove(1, way), 2)];
  }

  lemma LeavingFromPut(c: Client, d: Client, id: SessionId, way: Way, f2: Fine) returns (f3: Fine)
    requires c != d && way != Lost
    requires f2 == Fine(TakenOver(c, d, id), map[c := ToPut(id, StateAfter(way), ThenRemove(1, way), 2)])
    ensures CanTake(f2, Put(c, true)) && f3 == Take(f2, Put(c, true))
    ensures CanTake(f3, Remove(c)) && Robbed(Take(f3, Remove(c)), d, id, way)
  {
    hide OwnedBy;
    f3 := Take(f2, Put(c, true));
    assert Take(f3, Remove(c)).hand == map[];
  }

  lemma GivesUp(c: Client, d: Client, id: SessionId, way: Way)
    requires c != d
    ensures var f := Fine(TakenOver(c, d, id), map[c := Passed(1, way)]);
            CanRun(f, GivingUp(c, way)) && Robbed(Ran(f, GivingUp(c, way)), d, id, way)
  {
    hide Take, CanTake, CanRun, Ran, Robbed, Held;
    var f := Fine(TakenOver(c, d, id), map[c := Passed(1, way)]);
    if way == Lost {
      var f1, f2, f3 := LosingSteps(c, d, id);
      FourMoves(f, GivingUp(c, way), f1, f2, f3);
    } else {
      var f1, f2 := LeavingToPut(c, d, id, way);
      var f3 := LeavingFromPut(c, d, id, way, f2);
      FourMoves(f, GivingUp(c, way), f1, f2, f3);
    }
  }

  lemma FourMoves(f: Fine, moves: seq<Move>, f1: Fine, f2: Fine, f3: Fine)
    requires |moves| == 4
    requires CanTake(f, moves[0]) && f1 == Take(f, moves[0]) && CanTake(f1, moves[1]) && f2 == Take(f1, moves[1])
    requires CanTake(f2, moves[2]) && f3 == Take(f2, moves[2]) && CanTake(f3, moves[3])
    ensures CanRun(f, moves) && Ran(f, moves) == Take(f3, moves[3])
  {
    NoMoves(Take(f3, moves[3]));
    hide Take, CanTake, CanRun, Ran;
    FirstMove(f3, moves[3], []);
    FirstMove(f2, moves[2], [moves[3]] + []);
    FirstMove(f1, moves[1], [moves[2]] + ([moves[3]] + []));
    FirstMove(f, moves[0], [moves[1]] + ([moves[2]] + ([moves[3]] + [])));
    assert [moves[0]] + ([moves[1]] + ([moves[2]] + ([moves[3]] + []))) == moves;
  }

  lemma CheckPasses(c: Client, id: SessionId, way: Way)
    ensures var f := Fine(HeldBy(c, id), map[]);
            CanRun(f, [Check(c, 1, way)]) && Ran(f, [Check(c, 1, way)]) == Fine(HeldBy(c, id), map[c := Passed(1, way)])
  {
    var f := Fine(HeldBy(c, id), map[]);
    assert Owns(f.world.state, c, 1);
    var g := Take(f, Check(c, 1, way));
    assert g == Fine(HeldBy(c, id), map[c := Passed(1, way)]);
    NoMoves(g);
    FirstMove(f, Check(c, 1, way), []);
    assert [Check(c, 1, way)] + [] == [Check(c, 1, way)];
  }

  /** While `c` gives its handle up `d` takes the session over, and is robbed of
      it: its claim stands, but its commands are refused, the session is recorded
      as detached or stopped, and after a close it is gone. */
  lemma GivingUpCanRobTheNewOwner(c: Client, d: Client, id: SessionId, way: Way)
    requires c != d
    ensures var moves := FreshStart(c, id) + ([Check(c, 1, way)] + (JoiningStart(d, id) + GivingUp(c, way)));
            CanRun(FirstOf(map[]), moves) && Robbed(Ran(FirstOf(map[]), moves), d, id, way)
  {
    hide Take, CanTake, CanRun, Ran, Held, Robbed;
    StartsFresh(c, id);
    CheckPasses(c, id, way);
    TakesOver(c, d, id, map[c := Passed(1, way)]);
    GivesUp(c, d, id, way);
    RunOn(Fine(HeldBy(c, id), map[c := Passed(1, way)]), JoiningStart(d, id), GivingUp(c, way));
    RunOn(Fine(HeldBy(c, id), map[]), [Check(c, 1, way)], JoiningStart(d, id) + GivingUp(c, way));
    RunOn(FirstOf(map[]), FreshStart(c, id), [Check(c, 1, way)] + (JoiningStart(d, id) + GivingUp(c, way)));
  }

  lemma TwoMoves(f: Fine, a: Move, b: Move)
    requires CanTake(f, a) && CanTake(Take(f, a), b)
    ensures CanRun(f, [a, b]) && Ran(f, [a, b]) == Take(Take(f, a), b)
  {
    NoMoves(Take(Take(f, a), b));
    hide Take, CanTake, CanRun, Ran;
    FirstMove(Take(f, a), b, []);
    FirstMove(f, a, [b] + []);
    assert [a] + ([b] + []) == [a, b];
  }

  lemma ThreeMoves(f: Fine, a: Move, b: Move, e: Move)
    requires CanTake(f, a) && CanTake(Take(f, a), b) && CanTake(Take(Take(f, a), b), e)
    ensures CanRun(f, [a, b, e]) && Ran(f, [a, b, e]) == Take(Take(Take(f, a), b), e)
  {
    hide Take, CanTake, CanRun, Ran;
    TwoMoves(Take(f, a), b, e);
    FirstMove(f, a, [b, e]);
    assert [a] + [b, e] == [a, b, e];
  }

  /** Nobody owns the handle; its former owner still owes the record. */
  function LetGoAndOwing(c: Client, id: SessionId): Fine {
    Fine(World(State(map[1 := id], 1, map[], map[c := {}], map[id := Record(1, Attached)]), map[], map[id := 1], {}),
         map[c := Removed(1, Some(id))])
  }

  lemma LetsGo(c: Client, id: SessionId)
    ensures var f := Fine(HeldBy(c, id), map[]);
            CanRun(f, [Check(c, 1, Lost), Remove(c)]) && Ran(f, [Check(c, 1, Lost), Remove(c)]) == LetGoAndOwing(c, id)
  {
    var f := Fine(HeldBy(c, id), map[]);
    assert Owns(f.world.state, c, 1);
    var g := Take(f, Check(c, 1, Lost));
    var next := Take(g, Remove(c));
    assert OwnedBy(g.world.state, c) - {1} == {};
    assert next.world.state.owners == map[] && next.world.claims == map[] && next.world.state.owned == map[c := {}];
    assert next == LetGoAndOwing(c, id);
    hide Take, CanTake, CanRun, Ran;
    TwoMoves(f, Check(c, 1, Lost), Remove(c));
  }

  function ClaimedAnew(c: Client, d: Client, id: SessionId, state: RunState): World {
    Held(d, id, 2, map[c := {}, d := {1}], state)
  }

  lemma ClaimsAnew(c: Client, d: Client, id: SessionId)
    requires c != d
    ensures var f := LetGoAndOwing(c, id);
            CanRun(f, JoiningStart(d, id)) && Ran(f, JoiningStart(d, id)) == Fine(ClaimedAnew(c, d, id, Attached), f.hand)
  {
    var f := LetGoAndOwing(c, id);
    OneHandle(f.world, id);
    var next := Step(f.world, StartFrame(d, id, true, true, {}));
    assert next == ClaimedAnew(c, d, id, Attached) by {
      hide HandleOf;
      assert OwnedBy(f.world.state, d) + {1} == {1};
      assert next.state.owners == map[1 := d] && next.state.owned == map[c := {}, d := {1}];
      assert next.state.store == map[id := Record(2, Attached)] && next.claims == map[id := d] && next.starts == map[id := 2];
    }
    hide Step, CanRun, Ran, HandleOf;
    StartAlone(f, d, id, true);
    assert StartMoves(f, d, id, true) == JoiningStart(d, id);
  }

  lemma WritesLate(c: Client, d: Client, id: SessionId)
    requires c != d
    ensures var f := Fine(ClaimedAnew(c, d, id, Attached), map[c := Removed(1, Some(id))]);
            && CanRun(f, [Look(c), Get(c, true), Put(c, true)])
            && Ran(f, [Look(c), Get(c, true), Put(c, true)]) == Fine(ClaimedAnew(c, d, id, Detached), map[])
  {
    var f := Fine(ClaimedAnew(c, d, id, Attached), map[c := Removed(1, Some(id))]);
    var f1 := Take(f, Look(c));
    var f2 := Take(f1, Get(c, true));
    assert f2 == Fine(f.world, map[c := ToPut(id, Detached, Done, 2)]);
    var f3 := Take(f2, Put(c, true));
    assert f3.hand == map[] && f3.world.state.store == map[id := Record(2, Detached)];
    hide Take, CanTake, CanRun, Ran;
    ThreeMoves(f, Look(c), Get(c, true), Put(c, true));
  }

  lemma ClaimedAnewIsFenced(c: Client, d: Client, id: SessionId, state: RunState)
    requires c != d
    ensures Fenced(ClaimedAnew(c, d, id, state))
  {
    var w := ClaimedAnew(c, d, id, state);
    assert Live(w.state, id) by {
      assert w.state.sessions[1] == id;
    }
  }

  /** A lost connection lets a session go, another client claims it, and only then
      is the record of the loss put: with no frame under way owners and claims
      agree, and the session is recorded as detached under its owner. */
  lemma ALateRecordHidesTheOwner(c: Client, d: Client, id: SessionId)
    requires c != d
    ensures var moves := FreshStart(c, id) + ([Check(c, 1, Lost), Remove(c)] + (JoiningStart(d, id) + [Look(c), Get(c, true), Put(c, true)]));
            && CanRun(FirstOf(map[]), moves)
            && var f := Ran(FirstOf(map[]), moves);
               && f.hand == map[] && Fenced(f.world) && Claims(f.world, d, id) && Owns(f.world.state, d, 1)
               && f.world.state.store == map[id := Record(2, Detached)]
  {
    StartsFresh(c, id);
    LetsGo(c, id);
    ClaimsAnew(c, d, id);
    WritesLate(c, d, id);
    ClaimedAnewIsFenced(c, d, id, Detached);
    hide Take, CanTake, CanRun, Ran, Fenced;
    RunOn(LetGoAndOwing(c, id), JoiningStart(d, id), [Look(c), Get(c, true), Put(c, true)]);
    RunOn(Fine(HeldBy(c, id), map[]), [Check(c, 1, Lost), Remove(c)], JoiningStart(d, id) + [Look(c), Get(c, true), Put(c, true)]);
    RunOn(FirstOf(map[]), FreshStart(c, id), [Check(c, 1, Lost), Remove(c)] + (JoiningStart(d, id) + [Look(c), Get(c, true), Put(c, true)]));
  }

  lemma EnterTakes(f: Fine, c: Client, id: SessionId, h: Handle)
    requires c in f.hand && f.hand[c] == Found(id, h) && c !in f.world.gone
    ensures CanTake(f, Enter(c))
    ensures var next := Take(f, Enter(c));
            && next.hand == f.hand[c := ToGet(id, Attached, Done)]
            && next.world.starts == f.world.starts[id := StartsOf(f.world, id) + 1]
            && next.world.state.store == f.world.state.store && next.world.gone == f.world.gone
            && next.world.state.sessions == f.world.state.sessions && next.world.state.owners == f.world.state.owners[h := c]
  {
    hide OwnedBy;
  }

  lemma PutTakes(f: Fine, c: Client)
    requires c in f.hand && f.hand[c].ToPut? && f.hand[c].follow == Done && f.hand[c].generation <= I64_MAX
    ensures CanTake(f, Put(c, true))
    ensures var next := Take(f, Put(c, true));
            && next.hand == f.hand - {c} && next.world.starts == f.world.starts
            && next.world.state.store == f.world.state.store[f.hand[c].id := Record(f.hand[c].generation, f.hand[c].state)]
  {
  }

  lemma BothJoin(f: Fine, d: Client, e: Client, id: SessionId) returns (f2: Fine)
    requires d != e && f.hand == map[d := Found(id, 1), e := Found(id, 1)] && f.world.gone == {} && f.world.starts == map[id := 1]
    ensures CanRun(f, [Enter(d), Enter(e)]) && Ran(f, [Enter(d), Enter(e)]) == f2
    ensures f2.hand == map[d := ToGet(id, Attached, Done), e := ToGet(id, Attached, Done)]
    ensures f2.world.state.store == f.world.state.store && f2.world.starts == map[id := 3]
  {
    hide *;
    TwoHands(f.hand, d, e, Found(id, 1), ToGet(id, Attached, Done));
    EnterTakes(f, d, id, 1);
    var f1 := Take(f, Enter(d));
    Bumped(f.world, f1.world, id, 1);
    EnterTakes(f1, e, id, 1);
    f2 := Take(f1, Enter(e));
    Bumped(f1.world, f2.world, id, 2);
    TwoMoves(f, Enter(d), Enter(e));
  }

  lemma TwoHands(hand: map<Client, Hand>, d: Client, e: Client, x: Hand, y: Hand)
    requires d != e && hand == map[d := x, e := x]
    ensures d in hand && hand[d] == x && e in hand[d := y] && hand[d := y][e] == x
    ensures hand[d := y][e := y] == map[d := y, e := y]
  {
  }

  lemma Bumped(w: World, next: World, id: SessionId, n: nat)
    requires w.starts == map[id := n] && next.starts == w.starts[id := StartsOf(w, id) + 1]
    ensures next.starts == map[id := n + 1]
  {
  }

  lemma BothGet(f: Fine, d: Client, e: Client, id: SessionId) returns (f2: Fine)
    requires d != e && f.hand == map[d := ToGet(id, Attached, Done), e := ToGet(id, Attached, Done)]
    requires f.world.state.store == map[id := Record(1, Attached)]
    ensures CanRun(f, [Get(d, true), Get(e, true)]) && Ran(f, [Get(d, true), Get(e, true)]) == f2
    ensures f2 == Fine(f.world, map[d := ToPut(id, Attached, Done, 2), e := ToPut(id, Attached, Done, 2)])
  {
    f2 := Take(Take(f, Get(d, true)), Get(e, true));
    assert f2.hand == map[d := ToPut(id, Attached, Done, 2), e := ToPut(id, Attached, Done, 2)];
    hide Take, CanTake, CanRun, Ran;
    TwoMoves(f, Get(d, true), Get(e, true));
  }

  lemma BothPut(f: Fine, d: Client, e: Client, id: SessionId)
    requires d != e && f.hand == map[d := ToPut(id, Attached, Done, 2), e := ToPut(id, Attached, Done, 2)]
    requires f.world.state.store == map[id := Record(1, Attached)]
    ensures var moves := [Put(d, true), Put(e, true)];
            && CanRun(f, moves) && Ran(f, moves).hand == map[] && Ran(f, moves).world.starts == f.world.starts
            && Ran(f, moves).world.state.store == map[id := Record(2, Attached)]
  {
    hide Take, CanTake, CanRun, Ran;
    PutTakes(f, d);
    PutTakes(Take(f, Put(d, true)), e);
    var f2 := Take(Take(f, Put(d, true)), Put(e, true));
    assert f2.hand == map[] && f2.world.state.store == map[id := Record(2, Attached)];
    TwoMoves(f, Put(d, true), Put(e, true));
  }

  lemma BothFind(c: Client, d: Client, e: Client, id: SessionId)
    requires c != d && d != e && e != c
    ensures var f := Fine(HeldBy(c, id), map[]);
            && CanRun(f, [Find(d, id), Find(e, id)])
            && Ran(f, [Find(d, id), Find(e, id)]) == Fine(HeldBy(c, id), map[d := Found(id, 1), e := Found(id, 1)])
  {
    var f := Fine(HeldBy(c, id), map[]);
    OneHandle(f.world, id);
    hide HandleOf;
    var g := Take(f, Find(d, id));
    assert Take(g, Find(e, id)).hand == map[d := Found(id, 1), e := Found(id, 1)];
    hide Take, CanTake, CanRun, Ran;
    TwoMoves(f, Find(d, id), Find(e, id));
  }

  /** Two clients join one session, both read its generation before either writes,
      and both write the same: three starts are counted as two. */
  lemma TwoReadersLoseAStart(c: Client, d: Client, e: Client, id: SessionId)
    requires c != d && d != e && e != c
    ensures var moves := FreshStart(c, id) + ([Find(d, id), Find(e, id)]
                         + ([Enter(d), Enter(e)] + ([Get(d, true), Get(e, true)] + [Put(d, true), Put(e, true)])));
            && CanRun(FirstOf(map[]), moves)
            && var f := Ran(FirstOf(map[]), moves);
               f.hand == map[] && StartsOf(f.world, id) == 3 && f.world.state.store == map[id := Record(2, Attached)]
  {
    StartsFresh(c, id);
    BothFind(c, d, e, id);
    var f4 := BothJoin(Fine(HeldBy(c, id), map[d := Found(id, 1), e := Found(id, 1)]), d, e, id);
    var f6 := BothGet(f4, d, e, id);
    BothPut(f6, d, e, id);
    var found := Fine(HeldBy(c, id), map[d := Found(id, 1), e := Found(id, 1)]);
    var enter, get, put := [Enter(d), Enter(e)], [Get(d, true), Get(e, true)], [Put(d, true), Put(e, true)];
    hide Take, CanTake, CanRun, Ran, Held;
    RunOn(f4, get, put);
    RunOn(found, enter, get + put);
    RunOn(Fine(HeldBy(c, id), map[]), [Find(d, id), Find(e, id)], enter + (get + put));
    RunOn(FirstOf(map[]), FreshStart(c, id), [Find(d, id), Find(e, id)] + (enter + (get + put)));
  }

  lemma BothMissAndBegin(c: Client, d: Client, id: SessionId) returns (f1: Fine, f2: Fine, f3: Fine)
    requires c != d
    ensures CanTake(FirstOf(map[]), Miss(c, id)) && f1 == Take(FirstOf(map[]), Miss(c, id))
    ensures CanTake(f1, Miss(d, id)) && f2 == Take(f1, Miss(d, id))
    ensures CanTake(f2, Begin(c, true)) && f3 == Take(f2, Begin(c, true))
    ensures CanTake(f3, Begin(d, true))
    ensures var f4 := Take(f3, Begin(d, true));
            && f4.hand == map[c := Found(id, 1), d := Found(id, 2)] && f4.world.state.sessions == map[1 := id, 2 := id]
            && f4.world.gone == {} && f4.world.state.owners == map[]
  {
    f1 := Take(FirstOf(map[]), Miss(c, id));
    f2 := Take(f1, Miss(d, id));
    f3 := Take(f2, Begin(c, true));
    var f4 := Take(f3, Begin(d, true));
  }

  lemma BothEnter(f: Fine, c: Client, d: Client, id: SessionId)
    requires c != d && f.world.gone == {} && f.world.state.owners == map[]
    requires f.hand == map[c := Found(id, 1), d := Found(id, 2)] && f.world.state.sessions == map[1 := id, 2 := id]
    ensures CanRun(f, [Enter(c), Enter(d)])
    ensures var w := Ran(f, [Enter(c), Enter(d)]).world;
            w.state.sessions == map[1 := id, 2 := id] && w.state.owners == map[1 := c, 2 := d] && !OneSessionEach(w.state)
  {
    hide Take, CanTake, CanRun, Ran;
    EnterTakes(f, c, id, 1);
    var g := Take(f, Enter(c));
    assert g.hand[d] == Found(id, 2);
    EnterTakes(g, d, id, 2);
    var w := Take(g, Enter(d)).world;
    assert w.state.sessions[1] == w.state.sessions[2];
    TwoMoves(f, Enter(c), Enter(d));
  }

  /** Two clients look for a session before either begins one, and both do: the id
      has two live sessions, each with its own owner. */
  lemma TwoStartsCanBothBegin(c: Client, d: Client, id: SessionId)
    requires c != d
    ensures var moves := [Miss(c, id), Miss(d, id), Begin(c, true), Begin(d, true)] + [Enter(c), Enter(d)];
            && CanRun(FirstOf(map[]), moves)
            && var w := Ran(FirstOf(map[]), moves).world;
               w.state.sessions == map[1 := id, 2 := id] && w.state.owners == map[1 := c, 2 := d] && !OneSessionEach(w.state)
  {
    hide Take, CanTake, CanRun, Ran, OneSessionEach;
    var first := [Miss(c, id), Miss(d, id), Begin(c, true), Begin(d, true)];
    var f1, f2, f3 := BothMissAndBegin(c, d, id);
    FourMoves(FirstOf(map[]), first, f1, f2, f3);
    BothEnter(Take(f3, Begin(d, true)), c, d, id);
    RunOn(FirstOf(map[]), first, [Enter(c), Enter(d)]);
  }

  lemma FindsIt(c: Client, d: Client, id: SessionId)
    requires c != d
    ensures var f := Fine(HeldBy(c, id), map[]);
            CanRun(f, [Find(d, id)]) && Ran(f, [Find(d, id)]) == Fine(HeldBy(c, id), map[d := Found(id, 1)])
  {
    var f := Fine(HeldBy(c, id), map[]);
    OneHandle(f.world, id);
    FindStep(f, d, id);
    assert f.hand[d := Found(id, 1)] == map[d := Found(id, 1)];
    NoMoves(Take(f, Find(d, id)));
    hide Take, CanTake, CanRun, Ran, HandleOf;
    FirstMove(f, Find(d, id), []);
    assert [Find(d, id)] + [] == [Find(d, id)];
  }

  function Closing(c: Client): seq<Move> { [Check(c, 1, Ends), Look(c), Get(c, true), Put(c, true), Remove(c)] }

  lemma ClosesIt(c: Client, d: Client, id: SessionId)
    requires c != d
    ensures var f := Fine(HeldBy(c, id), map[d := Found(id, 1)]);
            && CanRun(f, Closing(c))
            && Ran(f, Closing(c)).hand == f.hand && Ran(f, Closing(c)).world.state.sessions == map[] && Ran(f, Closing(c)).world.gone == {}
  {
    var f := Fine(HeldBy(c, id), map[d := Found(id, 1)]);
    assert Owns(f.world.state, c, 1);
    assert Step(f.world, GiveUpFrame(f, c, 1, Ends, true)).state.sessions == map[];
    assert GiveUpMoves(f, c, 1, Ends, true) == Closing(c);
    hide Take, CanTake, CanRun, Ran;
    GiveUpAlone(f, c, 1, Ends, true);
  }

  lemma EntersIt(f: Fine, d: Client, id: SessionId)
    requires f.hand == map[d := Found(id, 1)] && f.world.state.sessions == map[] && f.world.gone == {}
    ensures CanRun(f, [Enter(d)])
    ensures Ran(f, [Enter(d)]).world.state.sessions == map[] && Owns(Ran(f, [Enter(d)]).world.state, d, 1)
  {
    hide OwnedBy;
    var g := Take(f, Enter(d));
    assert g.world.state.sessions == map[] && Owns(g.world.state, d, 1);
    NoMoves(g);
    FirstMove(f, Enter(d), []);
    assert [Enter(d)] + [] == [Enter(d)];
  }

  /** A start finds the session its owner then closes, and is entered as the owner
      of a handle that leads nowhere. */
  lemma AStartCanEnterADeadSession(c: Client, d: Client, id: SessionId)
    requires c != d
    ensures var moves := FreshStart(c, id) + ([Find(d, id)] + (Closing(c) + [Enter(d)]));
            && CanRun(FirstOf(map[]), moves)
            && var w := Ran(FirstOf(map[]), moves).world; w.state.sessions == map[] && Owns(w.state, d, 1)
  {
    StartsFresh(c, id);
    FindsIt(c, d, id);
    ClosesIt(c, d, id);
    hide Take, CanTake, CanRun, Ran, Held, Owns;
    var f := Fine(HeldBy(c, id), map[d := Found(id, 1)]);
    EntersIt(Ran(f, Closing(c)), d, id);
    RunOn(f, Closing(c), [Enter(d)]);
    RunOn(Fine(HeldBy(c, id), map[]), [Find(d, id)], Closing(c) + [Enter(d)]);
    RunOn(FirstOf(map[]), FreshStart(c, id), [Find(d, id)] + (Closing(c) + [Enter(d)]));
  }
}
