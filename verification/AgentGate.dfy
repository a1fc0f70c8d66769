/** The approval gate of `src-tauri/src/agent_bridge.rs` (`UiGate`).

    Three parties compete for the sender a request leaves in the table: whoever
    answers, the request's own timeout, and the closing of the session. A step
    is what one hold of the mutex or one channel operation does at a time, so
    that taking a sender out and sending on it are two steps. */
module AgentGate {
  type CallId = string
  type Request = nat

  datatype Decision = Allow | Deny

  datatype Phase =
    | Parked                                   // blocked in `recv_timeout`
    | GaveUp                                   // it returned an error; the table entry is still to go
    | Returned(decision: Decision, late: bool) // `late`: after an error

  /** `waiting` is the table; a sender taken out of it is `inHand` with the
      decision it will carry until that lies in the request's `channel`. */
  datatype Gate = Gate(
    waiting: map<CallId, Request>, inHand: map<Request, Decision>, channel: map<Request, Decision>,
    phase: map<Request, Phase>, call: map<Request, CallId>,
    taken: multiset<Request>, told: set<Request>)

  const NEW: Gate := Gate(map[], map[], map[], map[], map[], multiset{}, {})

  datatype Event =
    | Park(r: Request, id: CallId)
    | TakeAnswer(answered: CallId, decision: Decision)
    | Send(sent: Request)
    | ReleaseAll
    | Receive(woken: Request)
    | GiveUp(expired: Request)
    | CleanUp(done: Request)

  predicate Enabled(g: Gate, e: Event) {
    match e
    case Park(r, _) => r !in g.phase
    case TakeAnswer(_, _) => true
    case Send(r) => r in g.inHand
    case ReleaseAll => true
    case Receive(r) => r in g.phase && g.phase[r] == Parked && r in g.channel
    // the timeout, or every sender gone: either way nothing has arrived
    case GiveUp(r) => r in g.phase && g.phase[r] == Parked && r !in g.channel
    case CleanUp(r) => r in g.phase && g.phase[r] == GaveUp && r in g.call
  }

  function Step(g: Gate, e: Event): Gate
    requires Enabled(g, e)
  {
    match e
    case Park(r, id) => g.(waiting := g.waiting[id := r], phase := g.phase[r := Parked], call := g.call[r := id])
    case TakeAnswer(id, decision) =>
      if id !in g.waiting then g
      else
        var r := g.waiting[id];
        g.(waiting := g.waiting - {id}, inHand := g.inHand[r := decision], taken := g.taken + multiset{r})
    case Send(r) =>
      // the receiver lives until its request returns; only then does `send` fail
      var rest := g.(inHand := g.inHand - {r});
      if r in g.phase && g.phase[r].Returned? then rest
      else rest.(channel := g.channel[r := g.inHand[r]], told := g.told + {r})
    case ReleaseAll =>
      g.(waiting := map[], inHand := g.inHand + (map r | r in g.waiting.Values :: Deny),
         taken := g.taken + multiset(g.waiting.Values))
    case Receive(r) => g.(phase := g.phase[r := Returned(g.channel[r], false)])
    case GiveUp(r) => g.(phase := g.phase[r := GaveUp])
    case CleanUp(r) => g.(waiting := g.waiting - {g.call[r]}, phase := g.phase[r := Returned(Deny, true)])
  }

  ghost predicate Runs(g: Gate, events: seq<Event>)
    decreases |events|
  {
    events != [] ==> Enabled(g, events[0]) && Runs(Step(g, events[0]), events[1..])
  }

  ghost function After(g: Gate, events: seq<Event>): Gate
    requires Runs(g, events)
    decreases |events|
  {
    if events == [] then g else After(Step(g, events[0]), events[1..])
  }

  // ----------------------------------------------------------------- safety

  /** A sender in the table was parked by its own request under that id, and
      nobody has taken it. */
  ghost predicate TableSound(g: Gate) {
    forall id :: id in g.waiting ==>
      var r := g.waiting[id];
      r in g.phase && r in g.call && g.call[r] == id && g.taken[r] == 0 && r !in g.inHand && r !in g.channel
  }

  /** A sender out of the table is in one hand, or its decision has arrived. */
  ghost predicate HandSound(g: Gate) {
    && (forall r :: r in g.inHand ==> r in g.phase && g.taken[r] == 1 && r !in g.channel)
    && (forall r :: r in g.channel ==> r in g.phase && g.taken[r] == 1 && r in g.told)
    && (forall r :: r in g.told ==> r in g.channel)
  }

  ghost predicate TakenSound(g: Gate) {
    && (forall r :: r in g.phase ==> r in g.call)
    && (forall r :: r !in g.phase ==> g.taken[r] == 0)
    && (forall r :: g.taken[r] <= 1)
  }

  /** A request returns what came through its channel, or a refusal. */
  ghost predicate AnswersSound(g: Gate) {
    forall r :: r in g.phase && g.phase[r].Returned? ==>
      if g.phase[r].late then g.phase[r].decision == Deny
      else r in g.channel && g.phase[r].decision == g.channel[r]
  }

  ghost predicate Sound(g: Gate) { TableSound(g) && HandSound(g) && TakenSound(g) && AnswersSound(g) }

  lemma ReleasedAreUntaken(g: Gate)
    requires Sound(g)
    ensures forall r :: r in g.waiting.Values ==> g.taken[r] == 0 && r in g.phase && r !in g.channel && r !in g.inHand
  {
    forall r | r in g.waiting.Values
      ensures g.taken[r] == 0 && r in g.phase && r !in g.channel && r !in g.inHand
    {
      var id :| id in g.waiting && g.waiting[id] == r;
    }
  }

  /** Gate `next` is `g` after the senders of `released` were taken to be refused. */
  ghost predicate Refusing(g: Gate, next: Gate, released: set<Request>) {
    && next.waiting == map[]
    && next.phase == g.phase && next.call == g.call && next.channel == g.channel && next.told == g.told
    && (forall r :: next.taken[r] == g.taken[r] + if r in released then 1 else 0)
    && (forall r :: r in next.inHand <==> r in g.inHand || r in released)
    && (forall r :: r in next.inHand ==> next.inHand[r] == if r in released then Deny else g.inHand[r])
  }

  lemma ReleaseRefuses(g: Gate)
    ensures Refusing(g, Step(g, ReleaseAll), g.waiting.Values)
  {
  }

  lemma RefusingKeepsSound(g: Gate, next: Gate, released: set<Request>)
    requires Sound(g) && Refusing(g, next, released)
    requires forall r :: r in released ==> g.taken[r] == 0 && r in g.phase && r !in g.channel && r !in g.inHand
    ensures Sound(next)
  {
  }

  lemma ReleaseKeepsSound(g: Gate)
    requires Sound(g)
    ensures Sound(Step(g, ReleaseAll))
  {
    ReleasedAreUntaken(g);
    ReleaseRefuses(g);
    hide Sound, Refusing, Step;
    RefusingKeepsSound(g, Step(g, ReleaseAll), g.waiting.Values);
  }

  lemma TakeKeepsHands(g: Gate, id: CallId, decision: Decision)
    requires Sound(g)
    ensures HandSound(Step(g, TakeAnswer(id, decision)))
  {
    if id in g.waiting {
      var next := Step(g, TakeAnswer(id, decision));
      assert forall s :: next.taken[s] == g.taken[s] + if s == g.waiting[id] then 1 else 0;
    }
    hide AnswersSound;
  }

  lemma TakeKeepsSound(g: Gate, id: CallId, decision: Decision)
    requires Sound(g)
    ensures Sound(Step(g, TakeAnswer(id, decision)))
  {
    TakeKeepsHands(g, id, decision);
    hide HandSound;
    if id in g.waiting {
      var next := Step(g, TakeAnswer(id, decision));
      var r := g.waiting[id];
      assert forall s :: next.taken[s] == g.taken[s] + if s == r then 1 else 0;
      assert forall other :: other in next.waiting ==> g.call[next.waiting[other]] == other && next.waiting[other] != r;
    }
  }

  lemma ParkKeepsSound(g: Gate, r: Request, id: CallId)
    requires Sound(g) && r !in g.phase
    ensures Sound(Step(g, Park(r, id)))
  {
  }

  lemma SendKeepsHands(g: Gate, r: Request)
    requires HandSound(g) && r in g.inHand
    ensures HandSound(Step(g, Send(r)))
  {
  }

  lemma SendKeepsTable(g: Gate, r: Request)
    requires TableSound(g) && r in g.inHand
    ensures TableSound(Step(g, Send(r)))
  {
  }

  lemma SendKeepsAnswers(g: Gate, r: Request)
    requires HandSound(g) && AnswersSound(g) && r in g.inHand
    ensures AnswersSound(Step(g, Send(r)))
  {
  }

  lemma SendKeepsSound(g: Gate, r: Request)
    requires Sound(g) && r in g.inHand
    ensures Sound(Step(g, Send(r)))
  {
    SendKeepsHands(g, r);
    SendKeepsTable(g, r);
    SendKeepsAnswers(g, r);
    hide HandSound, TableSound, AnswersSound;
  }

  lemma CleanUpKeepsSound(g: Gate, r: Request)
    requires Sound(g) && Enabled(g, CleanUp(r))
    ensures Sound(Step(g, CleanUp(r)))
  {
  }

  lemma StepKeepsSound(g: Gate, e: Event)
    requires Sound(g) && Enabled(g, e)
    ensures Sound(Step(g, e))
  {
    match e
    case Park(r, id) => ParkKeepsSound(g, r, id);
    case TakeAnswer(id, decision) => TakeKeepsSound(g, id, decision);
    case Send(r) => SendKeepsSound(g, r);
    case ReleaseAll => ReleaseKeepsSound(g);
    case Receive(r) =>
    case GiveUp(r) =>
    case CleanUp(r) => CleanUpKeepsSound(g, r);
  }

  lemma {:induction false} RunKeepsSound(g: Gate, events: seq<Event>)
    requires Sound(g) && Runs(g, events)
    ensures Sound(After(g, events))
    decreases |events|
  {
    if events != [] {
      StepKeepsSound(g, events[0]);
      RunKeepsSound(Step(g, events[0]), events[1..]);
    }
  }

  // ------------------------------------------------------- distinct call ids

  predicate InFlight(g: Gate, r: Request) { r in g.phase && !g.phase[r].Returned? }

  /** Request `r` may still come back to the table entry under `id`: it is in
      flight, and no decision lies ready for it to wake up to. */
  predicate Pending(g: Gate, r: Request, id: CallId) {
    InFlight(g, r) && r in g.call && g.call[r] == id && !(g.phase[r] == Parked && r in g.channel)
  }

  /** A request parks under an id no pending request is using. */
  ghost predicate ParksApart(g: Gate, e: Event) {
    e.Park? ==> forall r :: !Pending(g, r, e.id)
  }

  ghost predicate AllPark(g: Gate, events: seq<Event>)
    requires Runs(g, events)
    decreases |events|
  {
    events != [] ==> ParksApart(g, events[0]) && AllPark(Step(g, events[0]), events[1..])
  }

  /** A parked request's sender is in the table under its own id, in somebody's
      hand, or its decision has arrived. */
  ghost predicate Reachable(g: Gate, r: Request) {
    || (r in g.call && g.call[r] in g.waiting && g.waiting[g.call[r]] == r)
    || r in g.inHand || r in g.channel
  }

  /** No two pending requests share an id. */
  ghost predicate IdsDistinct(g: Gate) {
    forall r, s, id :: Pending(g, r, id) && Pending(g, s, id) ==> r == s
  }

  ghost predicate TableInFlight(g: Gate) {
    forall id :: id in g.waiting ==> InFlight(g, g.waiting[id])
  }

  ghost predicate AllReachable(g: Gate) {
    forall r :: r in g.phase && g.phase[r] == Parked ==> Reachable(g, r)
  }

  ghost predicate NoSenderLost(g: Gate) { IdsDistinct(g) && TableInFlight(g) && AllReachable(g) }

  lemma PendingBefore(g: Gate, e: Event, r: Request, id: CallId)
    requires Enabled(g, e) && Pending(Step(g, e), r, id)
    ensures (e.Park? && r == e.r && id == e.id) || Pending(g, r, id)
  {
  }

  lemma StepKeepsIds(g: Gate, e: Event)
    requires IdsDistinct(g) && Enabled(g, e) && ParksApart(g, e)
    ensures IdsDistinct(Step(g, e))
  {
    hide Step, Pending;
    forall r, s, id | Pending(Step(g, e), r, id) && Pending(Step(g, e), s, id)
      ensures r == s
    {
      PendingBefore(g, e, r, id);
      PendingBefore(g, e, s, id);
    }
  }

  /** A sender leaves the table with its own request: cleaning up removes the
      entry of the request that gave up, or none. */
  lemma EntryInFlight(g: Gate, e: Event, id: CallId)
    requires TableSound(g) && TableInFlight(g) && Enabled(g, e)
    requires id in Step(g, e).waiting
    ensures InFlight(Step(g, e), Step(g, e).waiting[id])
  {
    match e
    case Park(_, _) =>
    case TakeAnswer(_, _) =>
    case Send(_) =>
    case ReleaseAll =>
    case Receive(_) => assert id in g.waiting;
    case GiveUp(_) =>
    case CleanUp(_) => assert id in g.waiting && g.call[g.waiting[id]] == id;
  }

  lemma StepKeepsTable(g: Gate, e: Event)
    requires TableSound(g) && TableInFlight(g) && Enabled(g, e)
    ensures TableInFlight(Step(g, e))
  {
    forall id | id in Step(g, e).waiting
      ensures InFlight(Step(g, e), Step(g, e).waiting[id])
    {
      EntryInFlight(g, e, id);
    }
  }

  lemma StaysReachable(g: Gate, e: Event, r: Request)
    requires TableSound(g) && IdsDistinct(g) && Enabled(g, e) && ParksApart(g, e)
    requires r in g.phase && r in g.call && g.phase[r] == Parked && Reachable(g, r)
    ensures Reachable(Step(g, e), r)
  {
    var id := g.call[r];
    if id in g.waiting && g.waiting[id] == r {
      assert Pending(g, r, id);
      match e
      case CleanUp(s) => assert g.call[s] == id ==> Pending(g, s, id);
      case ReleaseAll => assert r in g.waiting.Values;
      case _ =>
    }
  }

  lemma StepKeepsReachable(g: Gate, e: Event)
    requires Sound(g) && NoSenderLost(g) && Enabled(g, e) && ParksApart(g, e)
    ensures AllReachable(Step(g, e))
  {
    hide TableSound, HandSound, AnswersSound, IdsDistinct, TableInFlight, ParksApart;
    forall r | r in Step(g, e).phase && Step(g, e).phase[r] == Parked
      ensures Reachable(Step(g, e), r)
    {
      if e.Park? && r == e.r {
        assert Step(g, e).waiting[e.id] == r;
      } else {
        ParkedBefore(g, e, r);
        hide Step, Reachable;
        StaysReachable(g, e, r);
      }
    }
  }

  lemma ParkedBefore(g: Gate, e: Event, r: Request)
    requires Enabled(g, e) && r in Step(g, e).phase && Step(g, e).phase[r] == Parked && !(e.Park? && r == e.r)
    ensures r in g.phase && g.phase[r] == Parked
  {
  }

  lemma StepLosesNoSender(g: Gate, e: Event)
    requires Sound(g) && NoSenderLost(g) && Enabled(g, e) && ParksApart(g, e)
    ensures NoSenderLost(Step(g, e))
  {
    StepKeepsIds(g, e);
    StepKeepsTable(g, e);
    StepKeepsReachable(g, e);
    hide Step, Enabled, IdsDistinct, TableInFlight, AllReachable, Sound, ParksApart;
  }

  lemma {:induction false} RunLosesNoSender(g: Gate, events: seq<Event>)
    requires Sound(g) && NoSenderLost(g) && Runs(g, events) && AllPark(g, events)
    ensures Sound(After(g, events)) && NoSenderLost(After(g, events))
    decreases |events|
  {
    if events != [] {
      StepKeepsSound(g, events[0]);
      StepLosesNoSender(g, events[0]);
      RunLosesNoSender(Step(g, events[0]), events[1..]);
    }
  }

  /** With distinct ids pending no request ever loses its sender: each one still
      parked can be answered under its own id, or is about to be woken. After a
      session is stopped only the latter is left. */
  lemma ParkedCanBeAnswered(events: seq<Event>)
    requires Runs(NEW, events) && AllPark(NEW, events)
    ensures var g := After(NEW, events);
            && (forall r :: r in g.phase && g.phase[r] == Parked ==> Reachable(g, r))
            && (forall r :: r in g.phase && g.phase[r] == Parked ==>
                  r in Step(g, ReleaseAll).inHand || r in g.channel)
  {
    RunLosesNoSender(NEW, events);
  }

  /** However it goes on with ids kept apart, no parked request is stranded. */
  ghost predicate NeverStrands(g: Gate) {
    forall more :: Runs(g, more) && AllPark(g, more) ==> AllReachable(After(g, more))
  }

  lemma StrandsAfter(g: Gate, more: seq<Event>, s: Request)
    requires Runs(g, more) && AllPark(g, more)
    requires s in After(g, more).phase && After(g, more).phase[s] == Parked && !Reachable(After(g, more), s)
    ensures !NeverStrands(g)
  {
    assert !AllReachable(After(g, more));
  }

  /** The pending request `r` has its sender taken out, or has given up: once it
      has cleaned up, the newcomer's entry under the id is gone. */
  lemma CleanUpStrands(g: Gate, r: Request, s: Request, id: CallId)
    requires Sound(g) && s in g.phase && g.phase[s] == Parked && s in g.call && g.call[s] == id
    requires s !in g.inHand && s !in g.channel && r != s
    requires Pending(g, r, id)
    ensures !NeverStrands(g)
  {
    if g.phase[r] == GaveUp {
      var g1 := Step(g, CleanUp(r));
      var more := [CleanUp(r)];
      assert more[1..] == [] && !Reachable(g1, s);
      assert Runs(g1, []) && AllPark(g1, []) && After(g1, []) == g1;
      assert Runs(g, more) && AllPark(g, more) && After(g, more) == g1;
      StrandsAfter(g, more, s);
    } else {
      var g1 := Step(g, GiveUp(r));
      var g2 := Step(g1, CleanUp(r));
      var more := [GiveUp(r), CleanUp(r)];
      assert more[1..] == [CleanUp(r)] && more[1..][1..] == [] && !Reachable(g2, s);
      assert Runs(g2, []) && AllPark(g2, []) && After(g2, []) == g2;
      assert Runs(g1, more[1..]) && AllPark(g1, more[1..]) && After(g1, more[1..]) == g2;
      assert Runs(g, more) && AllPark(g, more) && After(g, more) == g2;
      StrandsAfter(g, more, s);
    }
  }

  /** A park beside a pending request under the same id strands one of the two:
      at once when the newcomer's sender overwrites one, later when the other
      cleans up. */
  lemma ParkBesideStrands(g: Gate, s: Request, id: CallId, r: Request)
    requires Sound(g) && AllReachable(g) && s !in g.phase && Pending(g, r, id)
    ensures !NeverStrands(Step(g, Park(s, id)))
  {
    var h := Step(g, Park(s, id));
    ParkKeepsSound(g, s, id);
    assert s !in h.inHand && s !in h.channel;
    if g.phase[r] == Parked && id in g.waiting && g.waiting[id] == r {
      assert After(h, []) == h;
      assert !Reachable(h, r);
      StrandsAfter(h, [], r);
    } else {
      CleanUpStrands(h, r, s, id);
    }
  }

  /** Exactly when a request may park under an id: after a run with ids kept
      apart no later one strands a parked request if and only if no pending
      request holds the id. */
  lemma ParkIsSafeIff(events: seq<Event>, s: Request, id: CallId)
    requires Runs(NEW, events) && AllPark(NEW, events) && s !in After(NEW, events).phase
    ensures NeverStrands(Step(After(NEW, events), Park(s, id))) <==> forall r :: !Pending(After(NEW, events), r, id)
  {
    var g := After(NEW, events);
    var h := Step(g, Park(s, id));
    RunLosesNoSender(NEW, events);
    hide After, Step, Runs, AllPark, AllReachable, IdsDistinct, TableInFlight, Sound, Pending;
    if r :| Pending(g, r, id) {
      ParkBesideStrands(g, s, id, r);
    } else {
      StepKeepsSound(g, Park(s, id));
      StepLosesNoSender(g, Park(s, id));
      forall more | Runs(h, more) && AllPark(h, more)
        ensures AllReachable(After(h, more))
      {
        RunLosesNoSender(h, more);
      }
    }
  }

  // ------------------------------------------------------------ late answers

  /** Request `r` is woken by `d` or will be: nothing else can come of it. */
  predicate Heard(g: Gate, r: Request, d: Decision) {
    r in g.phase && r in g.channel && g.channel[r] == d && (g.phase[r] == Parked || g.phase[r] == Returned(d, false))
  }

  /** Request `r` has given up and will be refused, or has been. */
  predicate TooLate(g: Gate, r: Request) {
    r in g.phase && (g.phase[r] == GaveUp || g.phase[r] == Returned(Deny, true))
  }

  lemma StepKeepsHeard(g: Gate, e: Event, r: Request, d: Decision)
    requires Sound(g) && Enabled(g, e)
    ensures Heard(g, r, d) ==> Heard(Step(g, e), r, d)
    ensures TooLate(g, r) ==> TooLate(Step(g, e), r)
  {
  }

  lemma {:induction false} RunKeepsHeard(g: Gate, events: seq<Event>, r: Request, d: Decision)
    requires Sound(g) && Runs(g, events)
    ensures Heard(g, r, d) ==> Heard(After(g, events), r, d)
    ensures TooLate(g, r) ==> TooLate(After(g, events), r)
    decreases |events|
  {
    hide Step, Sound, Heard, TooLate, Enabled;
    if events != [] {
      StepKeepsSound(g, events[0]);
      StepKeepsHeard(g, events[0], r, d);
      RunKeepsHeard(Step(g, events[0]), events[1..], r, d);
    }
  }

  /** Whenever `r` returns, it returns `outcome`. */
  ghost predicate OnlyReturns(g: Gate, r: Request, outcome: Phase) {
    forall more :: Runs(g, more) && r in After(g, more).phase && After(g, more).phase[r].Returned? ==> After(g, more).phase[r] == outcome
  }

  /** A decision sent is the one its request returns, in every run from there, if
      and only if the request was still parked when it was sent. */
  lemma AnswerCountsIff(events: seq<Event>, r: Request)
    requires Runs(NEW, events)
    requires var g := After(NEW, events); r in g.inHand && r in g.phase && !g.phase[r].Returned?
    ensures var g := After(NEW, events);
            OnlyReturns(Step(g, Send(r)), r, Returned(g.inHand[r], false)) <==> g.phase[r] == Parked
  {
    var g := After(NEW, events);
    var d := g.inHand[r];
    var h := Step(g, Send(r));
    RunKeepsSound(NEW, events);
    StepKeepsSound(g, Send(r));
    if g.phase[r] == Parked {
      forall more | Runs(h, more) && r in After(h, more).phase && After(h, more).phase[r].Returned?
        ensures After(h, more).phase[r] == Returned(d, false)
      {
        RunKeepsHeard(h, more, r, d);
      }
    } else {
      LateReturn(h, r, d);
    }
  }

  lemma LateReturn(g: Gate, r: Request, d: Decision)
    requires r in g.phase && g.phase[r] == GaveUp && r in g.call
    ensures !OnlyReturns(g, r, Returned(d, false))
  {
    var g1 := Step(g, CleanUp(r));
    var more := [CleanUp(r)];
    assert more[1..] == [] && Runs(g1, []) && After(g1, []) == g1;
    assert Runs(g, more) && After(g, more) == g1;
    assert g1.phase[r] == Returned(Deny, true);
  }

  // ------------------------------------------------------------ concrete runs

  lemma FirstEvent(g: Gate, e: Event, events: seq<Event>)
    requires Enabled(g, e) && Runs(Step(g, e), events)
    ensures Runs(g, [e] + events) && After(g, [e] + events) == After(Step(g, e), events)
  {
    assert ([e] + events)[1..] == events;
  }

  /** Two requests in flight under one id: the first loses its sender to the
      second, and in cleaning up after itself takes the second's out of the
      table, which then nobody can answer. */
  lemma ReusedIdLosesBoth(id: CallId)
    ensures var events := [Park(0, id), Park(1, id), GiveUp(0), CleanUp(0)];
            && Runs(NEW, events)
            && var g := After(NEW, events); 1 in g.phase && g.phase[1] == Parked && !Reachable(g, 1)
  {
    var events := [Park(0, id), Park(1, id), GiveUp(0), CleanUp(0)];
    var g1 := Step(NEW, events[0]);
    var g2 := Step(g1, events[1]);
    var g3 := Step(g2, events[2]);
    var g4 := Step(g3, events[3]);
    assert g4.phase == map[0 := Returned(Deny, true), 1 := Parked] && g4.waiting == map[];
    assert Runs(g4, []) && After(g4, []) == g4;
    hide Step, Runs, After;
    FirstEvent(g3, events[3], []);
    FirstEvent(g2, events[2], [events[3]] + []);
    FirstEvent(g1, events[1], [events[2]] + ([events[3]] + []));
    FirstEvent(NEW, events[0], [events[1]] + ([events[2]] + ([events[3]] + [])));
    assert [events[0]] + ([events[1]] + ([events[2]] + ([events[3]] + []))) == events;
  }

  /** An answer can arrive after the request gave up: the answerer hears that
      it counted, and the request is refused all the same. */
  lemma LateAnswerIsRefused(id: CallId)
    ensures var events := [Park(0, id), TakeAnswer(id, Allow), GiveUp(0), Send(0), CleanUp(0)];
            && Runs(NEW, events)
            && var g := After(NEW, events); 0 in g.told && 0 in g.phase && g.phase[0] == Returned(Deny, true)
  {
    hide Step, Runs, After, Enabled;
    var tail := [Send(0), CleanUp(0)];
    var g1, g2, g3 := TakenThenGivenUp(id);
    SentThenCleanedUp(g3, id);
    FirstEvent(g2, GiveUp(0), tail);
    FirstEvent(g1, TakeAnswer(id, Allow), [GiveUp(0)] + tail);
    FirstEvent(NEW, Park(0, id), [TakeAnswer(id, Allow)] + ([GiveUp(0)] + tail));
    assert [Park(0, id)] + ([TakeAnswer(id, Allow)] + ([GiveUp(0)] + tail))
        == [Park(0, id), TakeAnswer(id, Allow), GiveUp(0), Send(0), CleanUp(0)];
  }

  lemma TakenThenGivenUp(id: CallId) returns (g1: Gate, g2: Gate, g3: Gate)
    ensures Enabled(NEW, Park(0, id)) && g1 == Step(NEW, Park(0, id))
    ensures Enabled(g1, TakeAnswer(id, Allow)) && g2 == Step(g1, TakeAnswer(id, Allow))
    ensures Enabled(g2, GiveUp(0)) && g3 == Step(g2, GiveUp(0))
    ensures g3.inHand == map[0 := Allow] && g3.phase == map[0 := GaveUp] && g3.call == map[0 := id]
  {
    g1 := Step(NEW, Park(0, id));
    g2 := Step(g1, TakeAnswer(id, Allow));
    g3 := Step(g2, GiveUp(0));
  }

  lemma SentThenCleanedUp(g3: Gate, id: CallId)
    requires g3.inHand == map[0 := Allow] && g3.phase == map[0 := GaveUp] && g3.call == map[0 := id]
    ensures var events := [Send(0), CleanUp(0)];
            && Runs(g3, events)
            && var g := After(g3, events); 0 in g.told && 0 in g.phase && g.phase[0] == Returned(Deny, true)
  {
    var g4 := Step(g3, Send(0));
    var g5 := Step(g4, CleanUp(0));
    assert Runs(g5, []) && After(g5, []) == g5;
    assert 0 in g5.told && g5.phase[0] == Returned(Deny, true);
    hide Step, Runs, After;
    FirstEvent(g4, CleanUp(0), []);
    FirstEvent(g3, Send(0), [CleanUp(0)] + []);
    assert [Send(0)] + ([CleanUp(0)] + []) == [Send(0), CleanUp(0)];
  }
}
