/** What a request returns, told from the events alone: who parked, who answered
    and who was released. */
module GateHistory {
  import opened AgentGate

  /** The run up to, and without, event `k`. */
  ghost function Before(events: seq<Event>, k: nat): (g: Gate)
    requires Runs(NEW, events) && k <= |events|
  {
    FrontRuns(NEW, events, k);
    After(NEW, events[..k])
  }

  lemma {:induction false} FrontRuns(g: Gate, events: seq<Event>, k: nat)
    requires Runs(g, events) && k <= |events|
    ensures Runs(g, events[..k])
    ensures k < |events| ==> Enabled(After(g, events[..k]), events[k])
    ensures k < |events| ==> Runs(g, events[..k + 1]) && After(g, events[..k + 1]) == Step(After(g, events[..k]), events[k])
    decreases k
  {
    hide Step, Enabled;
    if k == 0 {
      if events != [] {
        assert events[..1][1..] == [];
      }
    } else {
      FrontRuns(Step(g, events[0]), events[1..], k - 1);
      assert events[..k][1..] == events[1..][..k - 1];
      assert k < |events| ==> events[..k + 1][1..] == events[1..][..k];
    }
  }

  lemma NextIs(events: seq<Event>, k: nat)
    requires Runs(NEW, events) && k < |events|
    ensures Enabled(Before(events, k), events[k]) && Before(events, k + 1) == Step(Before(events, k), events[k])
  {
    FrontRuns(NEW, events, k);
  }

  // --------------------------------------------------------------- the table

  /** Request `r` parked under `id` at event `k`, and nothing since has taken that
      entry out: no newcomer, no answer, no release, nobody cleaning up under it. */
  ghost predicate Stands(events: seq<Event>, n: nat, k: int, r: Request, id: CallId)
    requires n <= |events|
  {
    0 <= k < n && events[k] == Park(r, id) && forall l :: k < l < n ==> !Displaces(events, l, id)
  }

  ghost predicate Displaces(events: seq<Event>, l: nat, id: CallId)
    requires l < |events|
  {
    match events[l]
    case Park(_, other) => other == id
    case TakeAnswer(other, _) => other == id
    case ReleaseAll => true
    case CleanUp(s) => ParkedUnder(events, l, s, id)
    case Send(_) => false
    case Receive(_) => false
    case GiveUp(_) => false
  }

  ghost predicate ParkedUnder(events: seq<Event>, n: nat, r: Request, id: CallId)
    requires n <= |events|
  {
    exists m :: 0 <= m < n && events[m] == Park(r, id)
  }

  predicate Called(g: Gate, r: Request, id: CallId) { r in g.call && g.call[r] == id }

  ghost predicate KnowsCalls(g: Gate) { forall r :: r in g.call <==> r in g.phase }

  lemma CallNext(g: Gate, e: Event, r: Request, id: CallId)
    requires KnowsCalls(g) && Enabled(g, e)
    ensures KnowsCalls(Step(g, e)) && (Called(Step(g, e), r, id) <==> Called(g, r, id) || e == Park(r, id))
  {
  }

  lemma NothingBefore(events: seq<Event>)
    requires Runs(NEW, events)
    ensures Before(events, 0) == NEW
  {
    assert events[..0] == [];
  }

  /** A request's id is the one it parked under. */
  lemma {:induction false} CallIsPark(events: seq<Event>, n: nat, r: Request, id: CallId)
    requires Runs(NEW, events) && n <= |events|
    ensures KnowsCalls(Before(events, n)) && (Called(Before(events, n), r, id) <==> ParkedUnder(events, n, r, id))
    decreases n
  {
    hide Before, Runs, Step, Enabled;
    if n == 0 {
      NothingBefore(events);
    } else {
      var m := n - 1;
      CallIsPark(events, m, r, id);
      NextIs(events, m);
      hide KnowsCalls, Called;
      CallNext(Before(events, m), events[m], r, id);
      assert ParkedUnder(events, n, r, id) <==> ParkedUnder(events, m, r, id) || events[m] == Park(r, id);
    }
  }

  predicate Held(g: Gate, r: Request, id: CallId) { id in g.waiting && g.waiting[id] == r }

  lemma HeldNext(events: seq<Event>, n: nat, r: Request, id: CallId)
    requires Runs(NEW, events) && n < |events|
    ensures Held(Before(events, n + 1), r, id)
       <==> events[n] == Park(r, id) || (Held(Before(events, n), r, id) && !Displaces(events, n, id))
  {
    NextIs(events, n);
    if events[n].CleanUp? {
      CallIsPark(events, n, events[n].done, id);
    }
    hide Runs, After;
  }

  /** The table holds a request's sender under an id exactly when it stands there. */
  lemma {:induction false} TableHoldsIff(events: seq<Event>, n: nat, r: Request, id: CallId)
    requires Runs(NEW, events) && n <= |events|
    ensures Held(Before(events, n), r, id) <==> exists k :: Stands(events, n, k, r, id)
    decreases n
  {
    if n == 0 {
      assert events[..0] == [];
    } else {
      var m := n - 1;
      TableHoldsIff(events, m, r, id);
      HeldNext(events, m, r, id);
      hide Runs, Before, Held, Displaces;
      if k :| Stands(events, m, k, r, id) {
        assert !Displaces(events, m, id) ==> Stands(events, n, k, r, id);
      }
      if events[m] == Park(r, id) {
        assert Stands(events, n, m, r, id);
      }
      if k :| Stands(events, n, k, r, id) {
        assert k < m ==> Stands(events, m, k, r, id) && !Displaces(events, m, id);
      }
    }
  }

  // ------------------------------------------------------------ the decisions

  /** Event `k` takes the sender of `r` with decision `d`: an answer under the id it
      stands under, or the release of the session, which refuses. */
  ghost predicate Takes(events: seq<Event>, k: nat, r: Request, d: Decision)
    requires k < |events|
  {
    match events[k]
    case TakeAnswer(id, decision) => decision == d && exists p :: Stands(events, k, p, r, id)
    case ReleaseAll => d == Deny && exists p, id :: Stands(events, k, p, r, id)
    case _ => false
  }

  /** The decision `r`'s sender carries, in hand or arrived. */
  predicate Carries(g: Gate, r: Request, d: Decision) {
    (r in g.inHand && g.inHand[r] == d) || (r in g.channel && g.channel[r] == d)
  }

  /** The same at the gate an event meets. */
  ghost predicate TakesIn(g: Gate, e: Event, r: Request, d: Decision) {
    match e
    case TakeAnswer(id, decision) => decision == d && Held(g, r, id)
    case ReleaseAll => d == Deny && exists id :: Held(g, r, id)
    case _ => false
  }

  lemma TakesAsHeld(events: seq<Event>, k: nat, r: Request, d: Decision)
    requires Runs(NEW, events) && k < |events|
    ensures Takes(events, k, r, d) <==> TakesIn(Before(events, k), events[k], r, d)
  {
    forall id
      ensures Held(Before(events, k), r, id) <==> exists p :: Stands(events, k, p, r, id)
    {
      TableHoldsIff(events, k, r, id);
    }
    var g := Before(events, k);
    hide Before, Runs, Stands, Held;
    if events[k].ReleaseAll? {
      if id :| Held(g, r, id) {
        var p :| Stands(events, k, p, r, id);
      }
      if p, id :| Stands(events, k, p, r, id) {
        assert Held(g, r, id);
      }
    }
  }

  lemma SoundBefore(events: seq<Event>, n: nat)
    requires Runs(NEW, events) && n <= |events|
    ensures Sound(Before(events, n))
  {
    FrontRuns(NEW, events, n);
    RunKeepsSound(NEW, events[..n]);
  }

  predicate IsPhase(g: Gate, r: Request, phase: Phase) { r in g.phase && g.phase[r] == phase }

  lemma InTable(g: Gate, r: Request)
    ensures r in g.waiting.Values <==> exists id :: Held(g, r, id)
  {
    if r in g.waiting.Values {
      var id :| id in g.waiting && g.waiting[id] == r;
      assert Held(g, r, id);
    }
  }

  /** What one step does to the decision a sender carries. */
  ghost predicate CarriesOn(g: Gate, e: Event, next: Gate, r: Request, d: Decision) {
    && (Carries(next, r, d) ==> Carries(g, r, d) || TakesIn(g, e, r, d))
    && (TakesIn(g, e, r, d) ==> Carries(next, r, d))
    && (Carries(g, r, d) ==> Carries(next, r, d) || IsPhase(next, r, Returned(Deny, true)))
  }

  lemma SendCarriesOn(g: Gate, s: Request, r: Request, d: Decision)
    requires HandSound(g) && AnswersSound(g) && Enabled(g, Send(s))
    ensures CarriesOn(g, Send(s), Step(g, Send(s)), r, d)
  {
  }

  lemma TakeCarriesOn(g: Gate, id: CallId, decision: Decision, r: Request, d: Decision)
    requires TableSound(g)
    ensures CarriesOn(g, TakeAnswer(id, decision), Step(g, TakeAnswer(id, decision)), r, d)
  {
  }

  lemma ReleaseCarriesOn(g: Gate, r: Request, d: Decision)
    requires Sound(g)
    ensures CarriesOn(g, ReleaseAll, Step(g, ReleaseAll), r, d)
  {
    InTable(g, r);
    ReleasedAreUntaken(g);
    ReleaseRefuses(g);
    hide Step, Sound, Held;
  }

  /** Only an event that takes it gives a sender its decision; only a request that
      returned without it, refused, lets it go. */
  lemma StepCarries(g: Gate, e: Event, r: Request, d: Decision)
    requires Sound(g) && Enabled(g, e)
    ensures CarriesOn(g, e, Step(g, e), r, d)
  {
    match e {
      case Send(s) => SendCarriesOn(g, s, r, d);
      case TakeAnswer(id, decision) => TakeCarriesOn(g, id, decision, r, d);
      case ReleaseAll => ReleaseCarriesOn(g, r, d);
      case Park(_, _) =>
      case Receive(_) =>
      case GiveUp(_) =>
      case CleanUp(_) =>
    }
    hide TableSound, HandSound, TakenSound, AnswersSound;
  }

  lemma StepCounts(g: Gate, e: Event, r: Request, d: Decision)
    requires Sound(g) && Enabled(g, e)
    ensures Step(g, e).taken[r] >= g.taken[r]
    ensures TakesIn(g, e, r, d) ==> g.taken[r] == 0 && Step(g, e).taken[r] == 1
  {
    InTable(g, r);
    if e.ReleaseAll? {
      ReleaseRefuses(g);
    }
  }

  ghost predicate TakenBy(events: seq<Event>, n: nat, r: Request, d: Decision)
    requires n <= |events|
  {
    exists k :: 0 <= k < n && Takes(events, k, r, d)
  }

  lemma TakenByNext(events: seq<Event>, m: nat, r: Request, d: Decision)
    requires m < |events|
    ensures TakenBy(events, m + 1, r, d) <==> TakenBy(events, m, r, d) || Takes(events, m, r, d)
  {
    hide Takes;
  }

  lemma {:induction false} CarriedIsTaken(events: seq<Event>, n: nat, r: Request, d: Decision)
    requires Runs(NEW, events) && n <= |events|
    ensures var g := Before(events, n);
            && (Carries(g, r, d) ==> TakenBy(events, n, r, d))
            && (TakenBy(events, n, r, d) ==> g.taken[r] >= 1 && (Carries(g, r, d) || IsPhase(g, r, Returned(Deny, true))))
    decreases n
  {
    if n == 0 {
      NothingBefore(events);
    } else {
      hide Before, Runs, Step, Enabled, Takes, TakesIn, Carries, Sound, IsPhase, TakenBy;
      var m := n - 1;
      var g := Before(events, m);
      CarriedIsTaken(events, m, r, d);
      NextIs(events, m);
      SoundBefore(events, m);
      TakesAsHeld(events, m, r, d);
      StepCarries(g, events[m], r, d);
      StepCounts(g, events[m], r, d);
      TakenByNext(events, m, r, d);
      if IsPhase(g, r, Returned(Deny, true)) {
        StaysLate(g, events[m], r);
      }
    }
  }

  lemma StaysLate(g: Gate, e: Event, r: Request)
    requires Sound(g) && Enabled(g, e) && IsPhase(g, r, Returned(Deny, true))
    ensures IsPhase(Step(g, e), r, Returned(Deny, true))
  {
  }

  // --------------------------------------------------------- what comes of it

  lemma PhaseNext(g: Gate, e: Event, r: Request, d: Decision)
    requires Sound(g) && Enabled(g, e)
    ensures IsPhase(Step(g, e), r, Returned(d, false))
       <==> IsPhase(g, r, Returned(d, false)) || (e == Receive(r) && r in g.channel && g.channel[r] == d)
    ensures IsPhase(Step(g, e), r, Returned(d, true)) <==> IsPhase(g, r, Returned(d, true)) || (d == Deny && e == CleanUp(r))
  {
    hide TableSound, HandSound, TakenSound, AnswersSound;
  }

  lemma ReturnedCarries(g: Gate, r: Request, d: Decision, other: Decision)
    requires Sound(g) && IsPhase(g, r, Returned(d, false))
    ensures Carries(g, r, other) <==> d == other
  {
  }

  lemma {:induction false} EndsAsTold(events: seq<Event>, n: nat, r: Request, d: Decision)
    requires Runs(NEW, events) && n <= |events|
    ensures IsPhase(Before(events, n), r, Returned(d, true)) <==> d == Deny && CleanUp(r) in events[..n]
    ensures IsPhase(Before(events, n), r, Returned(d, false)) ==> Receive(r) in events[..n]
    ensures Receive(r) in events[..n] ==>
              IsPhase(Before(events, n), r, Returned(Allow, false)) || IsPhase(Before(events, n), r, Returned(Deny, false))
    decreases n
  {
    hide Before, Runs, Step, Enabled, Sound;
    if n == 0 {
      NothingBefore(events);
    } else {
      var m := n - 1;
      var g := Before(events, m);
      EndsAsTold(events, m, r, Allow);
      EndsAsTold(events, m, r, Deny);
      NextIs(events, m);
      SoundBefore(events, m);
      PhaseNext(g, events[m], r, Allow);
      PhaseNext(g, events[m], r, Deny);
      if events[m] == Receive(r) {
        CanReceive(g, r);
      }
      hide IsPhase;
      assert events[..n] == events[..m] + [events[m]];
    }
  }

  lemma CanReceive(g: Gate, r: Request)
    requires Enabled(g, Receive(r))
    ensures r in g.channel
  {
  }

  /** In every interleaving, ids reused or not, what a request returns follows from
      the events: what came through its channel is the decision of the event that took
      the sender it parked, and an approval that timed out is a refusal. */
  lemma RequestReturnsIff(events: seq<Event>, r: Request, d: Decision)
    requires Runs(NEW, events)
    ensures var g := After(NEW, events);
            && (IsPhase(g, r, Returned(d, false)) <==> Receive(r) in events && TakenBy(events, |events|, r, d))
            && (IsPhase(g, r, Returned(d, true)) <==> d == Deny && CleanUp(r) in events)
  {
    var n := |events|;
    var g := Before(events, n);
    assert events[..n] == events;
    EndsAsTold(events, n, r, d);
    CarriedIsTaken(events, n, r, d);
    SoundBefore(events, n);
    hide Runs, After, Sound, TakenBy;
    if other :| IsPhase(g, r, Returned(other, false)) {
      ReturnedCarries(g, r, other, d);
    }
  }

  /** A sender is taken once. */
  lemma TakenOnce(events: seq<Event>, k: nat, l: nat, r: Request, d: Decision, other: Decision)
    requires Runs(NEW, events) && k < l < |events|
    requires Takes(events, k, r, d)
    ensures !Takes(events, l, r, other)
  {
    assert TakenBy(events, l, r, d);
    CarriedIsTaken(events, l, r, d);
    SoundBefore(events, l);
    TakesAsHeld(events, l, r, other);
    NextIs(events, l);
    hide Takes, TakenBy, Step;
    StepCounts(Before(events, l), events[l], r, other);
  }

  /** Nothing is allowed unasked: a request returns Allow only if an Allow answer was
      given under the very id its own entry then stood under. */
  lemma NothingIsAllowedUnasked(events: seq<Event>, r: Request, late: bool) returns (k: nat, id: CallId)
    requires Runs(NEW, events) && IsPhase(After(NEW, events), r, Returned(Allow, late))
    ensures !late && k < |events| && events[k] == TakeAnswer(id, Allow) && exists p :: Stands(events, k, p, r, id)
    ensures forall l, d :: 0 <= l < |events| && l != k ==> !Takes(events, l, r, d)
  {
    RequestReturnsIff(events, r, Allow);
    k :| 0 <= k < |events| && Takes(events, k, r, Allow);
    id := events[k].answered;
    forall l, d | 0 <= l < |events| && l != k
      ensures !Takes(events, l, r, d)
    {
      if k < l {
        TakenOnce(events, k, l, r, Allow, d);
      } else if Takes(events, l, r, d) {
        TakenOnce(events, l, k, r, d, Allow);
      }
    }
  }

  /** The decision of an answer that took `r`'s sender, once sent, is what `r` returns
      in every run from there, if and only if `r` was still parked at the send. */
  lemma AnswerIsReturnedIff(events: seq<Event>, k: nat, r: Request, d: Decision)
    requires Runs(NEW, events) && k < |events| && Takes(events, k, r, d)
    requires var g := After(NEW, events); r in g.inHand && r in g.phase && !g.phase[r].Returned?
    ensures var g := After(NEW, events);
            OnlyReturns(Step(g, Send(r)), r, Returned(d, false)) <==> g.phase[r] == Parked
  {
    var n := |events|;
    assert events[..n] == events;
    assert TakenBy(events, n, r, d);
    CarriedIsTaken(events, n, r, d);
    SoundBefore(events, n);
    var g := After(NEW, events);
    assert g.inHand[r] == d;
    hide *;
    AnswerCountsIff(events, r);
  }

  /** Event `k` sends `r` its decision while `r` is still there to hear. */
  ghost predicate SentInTime(events: seq<Event>, k: nat, r: Request)
    requires Runs(NEW, events) && k < |events|
  {
    var g := Before(events, k);
    events[k] == Send(r) && !(r in g.phase && g.phase[r].Returned?)
  }

  /** An answerer is told that it counted exactly when it was sent in time. */
  lemma {:induction false} ToldIff(events: seq<Event>, n: nat, r: Request)
    requires Runs(NEW, events) && n <= |events|
    ensures r in Before(events, n).told <==> exists k :: 0 <= k < n && SentInTime(events, k, r)
    decreases n
  {
    if n == 0 {
      NothingBefore(events);
    } else {
      var m := n - 1;
      ToldIff(events, m, r);
      NextIs(events, m);
      ToldNext(Before(events, m), events[m], r);
      assert SentInTime(events, m, r) <==> events[m] == Send(r) && !(r in Before(events, m).phase && Before(events, m).phase[r].Returned?);
      hide Before, Runs, Step, Enabled, SentInTime;
    }
  }

  lemma ToldNext(g: Gate, e: Event, r: Request)
    requires Enabled(g, e)
    ensures r in Step(g, e).told <==> r in g.told || (e == Send(r) && !(r in g.phase && g.phase[r].Returned?))
  {
  }

  /** Whoever was told so was obeyed, unless the request had given up by then. */
  lemma ToldIsObeyed(events: seq<Event>, r: Request, d: Decision)
    requires Runs(NEW, events) && TakenBy(events, |events|, r, d)
    requires var g := After(NEW, events); r in g.told && r in g.phase && g.phase[r].Returned?
    ensures var g := After(NEW, events); g.phase[r] == if CleanUp(r) in events then Returned(Deny, true) else Returned(d, false)
  {
    var g := After(NEW, events);
    var given := g.phase[r].decision;
    assert events[..|events|] == events;
    RequestReturnsIff(events, r, given);
    RequestReturnsIff(events, r, Deny);
    CarriedIsTaken(events, |events|, r, d);
    SoundBefore(events, |events|);
    assert Before(events, |events|) == g;
    hide Before, Runs, After, Sound, TakenBy, Carries;
    if g.phase[r].late {
      assert IsPhase(g, r, Returned(given, true));
    } else {
      assert IsPhase(g, r, Returned(given, false));
      ReturnedCarries(g, r, given, d);
    }
  }
}
