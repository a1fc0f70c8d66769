/** What the runtime store says of a session while several clients write its
    record, each by a get and a later put: exactly when the record follows the
    claims, and its generation the starts. */
module SupervisorRecords {
  import opened Options
  import opened AgentSupervisor
  import opened SupervisorLocks

  /** The hand is about to write that the session is attached. */
  predicate Attaching(hand: Hand, id: SessionId) {
    (hand.ToGet? || hand.ToPut?) && hand.id == id && hand.state == Attached
  }

  /** The hand has given the session up and owes the record of it. */
  predicate Owing(hand: Hand, id: SessionId) {
    || (hand.Removed? && hand.of == Some(id))
    || ((hand.ToGet? || hand.ToPut?) && hand.id == id && hand.state != Attached && hand.follow == Done)
  }

  /** The hand has recorded that it gives the session up, and has yet to do so. */
  predicate Leaving(hand: Hand, id: SessionId) { hand.Recorded? && hand.of == Some(id) }

  predicate Holds(f: Fine, c: Client, id: SessionId, p: (Hand, SessionId) -> bool) { c in f.hand && p(f.hand[c], id) }

  predicate IsAttached(f: Fine, id: SessionId) { id in f.world.state.store && f.world.state.store[id].state == Attached }

  /** Some client other than `c` owes the record. */
  ghost predicate OthersOwe(f: Fine, c: Client, id: SessionId) { exists d :: d != c && Holds(f, d, id, Owing) }

  ghost predicate Owed(f: Fine, id: SessionId) { exists d :: Holds(f, d, id, Owing) }

  datatype Expect = Yes | No | Either

  /** What the record should say: attached while a claim stands, unless the
      claimant's own write is on its way or it has recorded its leave. */
  ghost function Expected(f: Fine, id: SessionId): Expect {
    if id in f.world.claims then
      var c := f.world.claims[id];
      if Holds(f, c, id, Attaching) then Either else if Holds(f, c, id, Leaving) then No else Yes
    else if Owed(f, id) then Either
    else No
  }

  ghost predicate Follows(f: Fine, id: SessionId) {
    (Expected(f, id) == Yes ==> IsAttached(f, id)) && (Expected(f, id) == No ==> !IsAttached(f, id))
  }

  /** With no write under way: attached exactly while a claim stands. */
  lemma FollowsAtRest(f: Fine, id: SessionId)
    requires f.hand == map[]
    ensures Follows(f, id) <==> (IsAttached(f, id) <==> id in f.world.claims)
  {
  }

  // ----------------------------------------------------------- one session's record

  /** Whether the move leaves the record of `id` in keeping with the claims, told
      from what stands when it is made. */
  ghost predicate KeepsRecord(f: Fine, e: Move, id: SessionId)
    requires CanTake(f, e)
  {
    var c, w := e.client, f.world;
    match e
    case Put(_, ok) => f.hand[c].id == id ==> if GoesIn(f.hand[c], ok) then PutFits(f, c) else DropFits(f, c)
    case Get(_, ok) => f.hand[c].id == id && !ok ==> DropFits(f, c)
    case Look(_) =>
      f.hand[c].Removed? && f.hand[c].of == Some(id) && SessionOf(w.state, f.hand[c].handle) == None ==>
        id in w.claims || OthersOwe(f, c, id) || !IsAttached(f, id)
    case Remove(_) => f.hand[c].Recorded? && f.hand[c].of == Some(id) && Claims(w, c, id) ==> f.hand[c].handle in w.state.sessions
    case Vanish(_) => Claims(w, c, id) ==> Owed(f, id)
    case _ => true
  }

  /** An attached record fits a claim whose claimant is not leaving, or a session
      somebody owes a later record; any other record fits where no other claim
      stands, or its claimant is still to write or is leaving. */
  ghost predicate PutFits(f: Fine, c: Client)
    requires c in f.hand && f.hand[c].ToPut?
  {
    var id, w := f.hand[c].id, f.world;
    if f.hand[c].state == Attached then
      if id in w.claims then w.claims[id] == c || !Holds(f, w.claims[id], id, Leaving) else OthersOwe(f, c, id)
    else
      id in w.claims ==>
        if w.claims[id] == c then f.hand[c].follow != Done
        else Holds(f, w.claims[id], id, Attaching) || Holds(f, w.claims[id], id, Leaving)
  }

  /** A write given up is no loss where the record is right without it. */
  ghost predicate DropFits(f: Fine, c: Client)
    requires c in f.hand && (f.hand[c].ToGet? || f.hand[c].ToPut?)
  {
    var id, w := f.hand[c].id, f.world;
    if f.hand[c].state == Attached then Claims(w, c, id) ==> IsAttached(f, id)
    else f.hand[c].follow == Done && id !in w.claims ==> OthersOwe(f, c, id) || !IsAttached(f, id)
  }

  lemma OthersStayPut(f: Fine, e: Move, d: Client, id: SessionId, p: (Hand, SessionId) -> bool)
    requires CanTake(f, e) && d != e.client
    ensures Holds(Take(f, e), d, id, p) <==> Holds(f, d, id, p)
  {
    OthersHandsStay(f, e, d);
    hide Take, CanTake;
  }

  lemma OwedByOthers(f: Fine, e: Move, id: SessionId)
    requires CanTake(f, e)
    ensures OthersOwe(Take(f, e), e.client, id) <==> OthersOwe(f, e.client, id)
    ensures Owed(Take(f, e), id) <==> OthersOwe(f, e.client, id) || Holds(Take(f, e), e.client, id, Owing)
    ensures Owed(f, id) <==> OthersOwe(f, e.client, id) || Holds(f, e.client, id, Owing)
  {
    forall d | d != e.client
      ensures Holds(Take(f, e), d, id, Owing) <==> Holds(f, d, id, Owing)
    {
      OthersStayPut(f, e, d, id, Owing);
    }
    hide Take, CanTake, Holds;
  }

  /** The claimant's hand and the debts, after any move. */
  lemma AfterMove(f: Fine, e: Move, id: SessionId)
    requires CanTake(f, e)
    ensures OthersOwe(Take(f, e), e.client, id) <==> OthersOwe(f, e.client, id)
    ensures Owed(Take(f, e), id) <==> OthersOwe(f, e.client, id) || Holds(Take(f, e), e.client, id, Owing)
    ensures Owed(f, id) <==> OthersOwe(f, e.client, id) || Holds(f, e.client, id, Owing)
    ensures forall d :: d != e.client ==> (Holds(Take(f, e), d, id, Attaching) <==> Holds(f, d, id, Attaching))
    ensures forall d :: d != e.client ==> (Holds(Take(f, e), d, id, Leaving) <==> Holds(f, d, id, Leaving))
  {
    OwedByOthers(f, e, id);
    forall d | d != e.client
      ensures Holds(Take(f, e), d, id, Attaching) <==> Holds(f, d, id, Attaching)
      ensures Holds(Take(f, e), d, id, Leaving) <==> Holds(f, d, id, Leaving)
    {
      OthersStayPut(f, e, d, id, Attaching);
      OthersStayPut(f, e, d, id, Leaving);
    }
    hide Take, CanTake, Holds, Owed, OthersOwe;
  }

  /** Moves that change neither claims nor records nor what the hand is to write. */
  lemma QuietKeepsRecord(f: Fine, e: Move, id: SessionId)
    requires CanTake(f, e) && (e.Find? || e.Miss? || e.Begin? || e.Check?)
    ensures Follows(Take(f, e), id) <==> Follows(f, id)
  {
    AfterMove(f, e, id);
    hide OthersOwe, Owed, HandleOf, Live;
  }

  lemma EnterKeepsRecord(f: Fine, e: Move, id: SessionId)
    requires CanTake(f, e) && e.Enter? && Follows(f, id)
    ensures Follows(Take(f, e), id)
  {
    AfterMove(f, e, id);
    hide OthersOwe, Owed, OwnedBy;
  }

  lemma LookKeepsRecordIff(f: Fine, e: Move, id: SessionId)
    requires Known(f) && CanTake(f, e) && e.Look? && Follows(f, id)
    ensures Follows(Take(f, e), id) <==> KeepsRecord(f, e, id)
  {
    AfterMove(f, e, id);
    assert HandKnows(f.world.state, f.hand[e.client]);
    hide OthersOwe, Owed, Known;
  }

  lemma GetKeepsRecordIff(f: Fine, e: Move, id: SessionId)
    requires CanTake(f, e) && e.Get? && Follows(f, id)
    ensures Follows(Take(f, e), id) <==> KeepsRecord(f, e, id)
  {
    AfterMove(f, e, id);
    hide OthersOwe, Owed, NextGeneration;
  }

  lemma PutKeepsRecordIff(f: Fine, e: Move, id: SessionId)
    requires Known(f) && CanTake(f, e) && e.Put? && Follows(f, id)
    ensures Follows(Take(f, e), id) <==> KeepsRecord(f, e, id)
  {
    AfterMove(f, e, id);
    assert HandKnows(f.world.state, f.hand[e.client]);
    hide OthersOwe, Owed, Known;
  }

  lemma RemoveKeepsRecordIff(f: Fine, e: Move, id: SessionId)
    requires Known(f) && CanTake(f, e) && e.Remove? && Follows(f, id)
    ensures Follows(Take(f, e), id) <==> KeepsRecord(f, e, id)
  {
    AfterMove(f, e, id);
    assert HandKnows(f.world.state, f.hand[e.client]);
    hide OthersOwe, Owed, Known, OwnedBy;
  }

  lemma VanishKeepsRecordIff(f: Fine, e: Move, id: SessionId)
    requires CanTake(f, e) && e.Vanish? && Follows(f, id)
    ensures Follows(Take(f, e), id) <==> KeepsRecord(f, e, id)
  {
    AfterMove(f, e, id);
    var next := Take(f, e);
    assert next.world.state.store == f.world.state.store by {
      assert Abandoned(f.world.state, e.client) == {};
      assert AbandonedIds(f.world.state, {}) == {};
    }
    hide OthersOwe, Owed, DetachAll, Abandoned;
  }

  /** One move keeps one session's record following the claims exactly when the
      condition told from before the move holds. */
  lemma RecordKeptIff(f: Fine, e: Move, id: SessionId)
    requires Known(f) && CanTake(f, e) && Follows(f, id)
    ensures Follows(Take(f, e), id) <==> KeepsRecord(f, e, id)
  {
    match e
    case Find(_, _) => QuietKeepsRecord(f, e, id);
    case Miss(_, _) => QuietKeepsRecord(f, e, id);
    case Begin(_, _) => QuietKeepsRecord(f, e, id);
    case Check(_, _, _) => QuietKeepsRecord(f, e, id);
    case Enter(_) => EnterKeepsRecord(f, e, id);
    case Look(_) => LookKeepsRecordIff(f, e, id);
    case Get(_, _) => GetKeepsRecordIff(f, e, id);
    case Put(_, _) => PutKeepsRecordIff(f, e, id);
    case Remove(_) => RemoveKeepsRecordIff(f, e, id);
    case Vanish(_) => VanishKeepsRecordIff(f, e, id);
  }

  // ----------------------------------------------------------------- generations

  ghost function Writers(f: Fine, id: SessionId): set<Client> { set c | c in f.hand && Attaching(f.hand[c], id) }

  function Generation(f: Fine, id: SessionId): nat {
    if id in f.world.state.store then f.world.state.store[id].generation else 0
  }

  /** The generation counts the starts, but for those whose write is on its way. */
  ghost predicate Counts(f: Fine, base: map<SessionId, Record>, id: SessionId) {
    Generation(f, id) + |Writers(f, id)| == BaseGeneration(base, id) + StartsOf(f.world, id)
  }

  /** A put keeps the count when nothing was put since its get, save that an
      attaching one goes one further; an attaching write must not be given up. */
  predicate KeepsCount(f: Fine, e: Move, id: SessionId)
    requires (e.Put? ==> e.client in f.hand && f.hand[e.client].ToPut?) && (e.Get? ==> e.client in f.hand && f.hand[e.client].ToGet?)
  {
    match e
    case Put(c, ok) =>
      f.hand[c].id == id ==>
        if GoesIn(f.hand[c], ok) then f.hand[c].generation == Generation(f, id) + (if f.hand[c].state == Attached then 1 else 0)
        else f.hand[c].state != Attached
    case Get(c, ok) => f.hand[c].id == id && !ok ==> f.hand[c].state != Attached
    case _ => true
  }

  lemma WritersChange(f: Fine, e: Move, id: SessionId)
    requires CanTake(f, e)
    ensures var c, next := e.client, Take(f, e);
            |Writers(next, id)| + (if Holds(f, c, id, Attaching) then 1 else 0)
            == |Writers(f, id)| + (if Holds(next, c, id, Attaching) then 1 else 0)
  {
    var c, next := e.client, Take(f, e);
    forall d | d != c
      ensures d in Writers(next, id) <==> d in Writers(f, id)
    {
      OthersStayPut(f, e, d, id, Attaching);
    }
    hide Take, CanTake;
    assert Writers(next, id) - {c} == Writers(f, id) - {c};
    Without(Writers(next, id), c);
    Without(Writers(f, id), c);
  }

  lemma Without(s: set<Client>, c: Client)
    ensures |s| == |s - {c}| + if c in s then 1 else 0
  {
    if c in s {
      assert s == (s - {c}) + {c};
    } else {
      assert s - {c} == s;
    }
  }

  lemma VanishKeepsStore(f: Fine, e: Move)
    requires CanTake(f, e) && e.Vanish?
    ensures Take(f, e).world.state.store == f.world.state.store
  {
    assert Abandoned(f.world.state, e.client) == {};
    assert AbandonedIds(f.world.state, {}) == {};
  }

  lemma OtherMovesCount(f: Fine, e: Move, id: SessionId)
    requires CanTake(f, e) && !e.Put? && !e.Get?
    ensures Generation(Take(f, e), id) == Generation(f, id)
    ensures StartsOf(Take(f, e).world, id) - StartsOf(f.world, id)
         == (if Holds(Take(f, e), e.client, id, Attaching) then 1 else 0) - if Holds(f, e.client, id, Attaching) then 1 else 0
  {
    if e.Vanish? {
      VanishKeepsStore(f, e);
    }
    hide HandleOf, Live, OwnedBy, DetachAll, Abandoned, AbandonedIds;
  }

  lemma WritesCount(f: Fine, e: Move, id: SessionId)
    requires CanTake(f, e) && (e.Put? || e.Get?)
    ensures StartsOf(Take(f, e).world, id) == StartsOf(f.world, id)
    ensures var writing := if Holds(f, e.client, id, Attaching) then 1 else 0;
            var still := if Holds(Take(f, e), e.client, id, Attaching) then 1 else 0;
            Generation(Take(f, e), id) + still == Generation(f, id) + writing <==> KeepsCount(f, e, id)
  {
    hide NextGeneration;
  }

  lemma CountKeptIff(f: Fine, e: Move, base: map<SessionId, Record>, id: SessionId)
    requires CanTake(f, e) && Counts(f, base, id)
    ensures Counts(Take(f, e), base, id) <==> KeepsCount(f, e, id)
  {
    WritersChange(f, e, id);
    if e.Put? || e.Get? {
      WritesCount(f, e, id);
    } else {
      OtherMovesCount(f, e, id);
    }
    hide Writers, Take, CanTake, Generation, StartsOf, Holds;
  }

  // ------------------------------------------------------------------ whole runs

  ghost predicate Booked(f: Fine, base: map<SessionId, Record>, id: SessionId) { Follows(f, id) && Counts(f, base, id) }

  ghost predicate AllBooked(f: Fine, base: map<SessionId, Record>) { forall id :: Booked(f, base, id) }

  ghost predicate Keeps(f: Fine, e: Move, id: SessionId)
    requires CanTake(f, e)
  {
    KeepsRecord(f, e, id) && KeepsCount(f, e, id)
  }

  ghost predicate KeepsAll(f: Fine, e: Move)
    requires CanTake(f, e)
  {
    forall id :: Keeps(f, e, id)
  }

  lemma BookedIff(f: Fine, e: Move, base: map<SessionId, Record>)
    requires Known(f) && CanTake(f, e) && AllBooked(f, base)
    ensures AllBooked(Take(f, e), base) <==> KeepsAll(f, e)
  {
    hide Follows, Counts, KeepsRecord, KeepsCount, Take, CanTake, Known;
    forall id
      ensures Booked(Take(f, e), base, id) <==> Keeps(f, e, id)
    {
      assert Booked(f, base, id);
      RecordKeptIff(f, e, id);
      CountKeptIff(f, e, base, id);
    }
  }

  ghost predicate StaysBooked(f: Fine, moves: seq<Move>, base: map<SessionId, Record>)
    requires CanRun(f, moves)
    decreases |moves|
  {
    AllBooked(f, base) && (moves != [] ==> StaysBooked(Take(f, moves[0]), moves[1..], base))
  }

  ghost predicate EachKeeps(f: Fine, moves: seq<Move>)
    requires CanRun(f, moves)
    decreases |moves|
  {
    moves != [] ==> KeepsAll(f, moves[0]) && EachKeeps(Take(f, moves[0]), moves[1..])
  }

  lemma {:induction false} StaysBookedIff(f: Fine, moves: seq<Move>, base: map<SessionId, Record>)
    requires Known(f) && AllBooked(f, base) && CanRun(f, moves)
    ensures StaysBooked(f, moves, base) <==> EachKeeps(f, moves)
    ensures StaysBooked(f, moves, base) ==> AllBooked(Ran(f, moves), base)
    decreases |moves|
  {
    hide AllBooked, KeepsAll, Take, CanTake, Known;
    if moves != [] {
      BookedIff(f, moves[0], base);
      MoveKeepsKnown(f, moves[0]);
      if KeepsAll(f, moves[0]) {
        StaysBookedIff(Take(f, moves[0]), moves[1..], base);
      } else {
        assert !StaysBooked(Take(f, moves[0]), moves[1..], base);
      }
    }
  }

  lemma BookedAtFirst(base: map<SessionId, Record>)
    ensures AllBooked(FirstOf(base), base) <==> NoneAttached(base)
  {
    forall id
      ensures Booked(FirstOf(base), base, id) <==> (id in base ==> base[id].state != Attached)
    {
      assert Writers(FirstOf(base), id) == {};
    }
    hide Booked;
  }

  /** In every interleaving of gets and puts with everything else the records follow
      the claims and count the starts throughout if and only if none was attached
      to begin with and every move keeps them, as told from before the move. */
  lemma RecordsFollowIff(base: map<SessionId, Record>, moves: seq<Move>)
    requires CanRun(FirstOf(base), moves)
    ensures StaysBooked(FirstOf(base), moves, base) <==> NoneAttached(base) && EachKeeps(FirstOf(base), moves)
  {
    BookedAtFirst(base);
    hide AllBooked, EachKeeps, CanRun;
    if NoneAttached(base) {
      StaysBookedIff(FirstOf(base), moves, base);
    }
  }

  /** Where they do, and no frame is under way, a session is stored as attached
      exactly while a claim on it stands, and its generation counts its starts. */
  lemma RecordsAtRest(base: map<SessionId, Record>, moves: seq<Move>, id: SessionId)
    requires NoneAttached(base) && CanRun(FirstOf(base), moves) && EachKeeps(FirstOf(base), moves)
    requires Ran(FirstOf(base), moves).hand == map[]
    ensures var f := Ran(FirstOf(base), moves);
            && (IsAttached(f, id) <==> id in f.world.claims)
            && Generation(f, id) == BaseGeneration(base, id) + StartsOf(f.world, id)
  {
    BookedAtFirst(base);
    StaysBookedIff(FirstOf(base), moves, base);
    var f := Ran(FirstOf(base), moves);
    assert Booked(f, base, id);
    FollowsAtRest(f, id);
    assert Writers(f, id) == {};
  }
}
