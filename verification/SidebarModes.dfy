/** The hover arbiter as a machine of four modes: whatever the three timers, the flags
    and the callbacks of `src/sidebarHover.ts` do between them, it comes to this. */
module SidebarModes {
  import opened Options
  import opened SidebarHover

  /** At rest, about to open, about to close, or on the way out. */
  datatype Mode = Rest | Opening(at: nat) | Leaving(at: nat) | Going(at: nat)

  datatype View = View(
    mode: Mode, shown: bool, wanted: bool, locks: set<string>, pin: Option<bool>, hostHeld: bool, reduced: bool, now: nat)
  {
    predicate Pinned() { pin == Some(true) }

    /** Somebody keeps the panel: a lock, or the host. */
    predicate Kept() { locks != {} || hostHeld }
  }

  function ViewOf(s: State): View {
    View(if s.open.Some? then Opening(s.open.value)
         else if s.close.Some? then Leaving(s.close.value)
         else if s.exit.Some? then Going(s.exit.value)
         else Rest,
         s.shown, s.wanted, s.locks, s.pin, s.hostHeld, s.reduced, s.now)
  }

  // ---------------------------------------------------------------- the modes

  /** The pointer is on the panel or its edge no more. A panel that is shown, unpinned
      and kept by nobody starts its delay of 280 ms, unless it is on its way already. */
  function Goes(v: View): View {
    var mode := if v.mode.Opening? then Rest else v.mode;
    v.(wanted := false, mode := if mode == Rest && v.shown && !v.Pinned() && !v.Kept() then Leaving(v.now + 280) else mode)
  }

  /** Wanted or kept again: a delay before closing is forgotten, and a panel on its
      way out comes back. */
  function Stays(v: View): View {
    match v.mode
    case Rest => v
    case Opening(_) => v
    case Leaving(_) => v.(mode := Rest)
    case Going(_) => v.(mode := Rest, shown := true)
  }

  /** What holds of the panel is looked at afresh. */
  function Settles(v: View): View {
    if v.Pinned() then v.(mode := Rest) else if v.wanted || v.Kept() then Stays(v) else Goes(v)
  }

  function Forgets(v: View): View { v.(mode := Rest, wanted := false, locks := {}) }

  function ModeStep(v: View, e: Event): View {
    match e
    case EdgeEnter =>
      var w := v.(wanted := true);
      if v.Pinned() then w.(mode := Rest)
      else if v.shown || v.mode.Going? then w.(mode := Rest, shown := true)
      else if v.mode.Opening? then w
      else w.(mode := Opening(v.now + 100))
    case EdgeExit(outside) =>
      if v.shown && !outside then v.(mode := if v.mode.Opening? then Rest else v.mode) else Goes(v)
    case Enter =>
      var w := Stays(v.(wanted := true));
      if v.shown then w.(mode := Rest) else w
    case Leave => Goes(v)
    case Blur => Goes(v)
    case Hold(key, on) => Settles(v.(locks := if on then v.locks + {key} else v.locks - {key}))
    case Reconcile => Settles(v)
    case Reset => Forgets(v)
    case OpenFires => if v.mode.Opening? && v.mode.at <= v.now then v.(mode := Rest, shown := true) else v
    case CloseFires =>
      if !(v.mode.Leaving? && v.mode.at <= v.now) then v
      else if v.Kept() then v.(mode := Rest)
      else v.(mode := Going(v.now + if v.reduced then 0 else 200))
    case ExitFires =>
      if v.mode.Going? && v.mode.at <= v.now then v.(mode := Rest, shown := v.Kept()) else v
    case Wait(ms) => v.(now := v.now + ms)
    case HostHeld(on) => v.(hostHeld := on)
    case PinTo(on, hides) =>
      var w := v.(pin := on, shown := v.shown && !hides);
      if on == v.pin then w else Forgets(w)
    case Peek(on) => v.(shown := on && !v.Pinned())
    case Reduce(on) => v.(reduced := on)
  }

  lemma LeaveGoes(s: State)
    requires s.Valid()
    ensures ViewOf(s.Leave()) == Goes(ViewOf(s)) && ViewOf(s.ClearOpen().Leave()) == Goes(ViewOf(s))
  {
    hide State.NeverHidesWanted;
  }

  ghost predicate TimersAgree(s: State) { s.AtMostOneTimer() && (s.closing <==> s.exit.Some?) }

  lemma LookAndStay(s: State)
    requires TimersAgree(s) && !s.Pinned() && (s.wanted || s.Held())
    ensures ViewOf(s.Reconcile()) == Stays(ViewOf(s))
  {
  }

  lemma LookAndGo(s: State)
    requires TimersAgree(s) && !s.Pinned() && !s.wanted && !s.Held()
    ensures ViewOf(s.Reconcile()) == Goes(ViewOf(s))
  {
  }

  lemma ReconcileSettles(s: State)
    requires TimersAgree(s)
    ensures ViewOf(s.Reconcile()) == Settles(ViewOf(s))
  {
    if !s.Pinned() {
      if s.wanted || s.Held() {
        LookAndStay(s);
      } else {
        LookAndGo(s);
      }
      hide State.Reconcile, Stays, Goes;
    }
  }

  lemma CrossingStays(s: State)
    requires s.Valid()
    ensures ViewOf(s.EdgeEnter()) == ModeStep(ViewOf(s), Event.EdgeEnter)
  {
    hide State.NeverHidesWanted, State.Held, Stays, Goes, Settles, Forgets;
  }

  lemma EnteringStays(s: State)
    requires s.Valid()
    ensures ViewOf(s.Enter()) == ModeStep(ViewOf(s), Event.Enter)
  {
    if s.shown || s.closing {
      EnteringShows(s);
    } else {
      hide State.Valid, State.Show, State.Held, Goes, Settles, Forgets;
      assert s.exit == None && (s.open.Some? ==> s.close == None) by {
        assert s.Valid();
      }
    }
  }

  lemma EnteringShows(s: State)
    requires s.Valid() && (s.shown || s.closing)
    ensures ViewOf(s.Enter()) == ModeStep(ViewOf(s), Event.Enter)
  {
    hide State.NeverHidesWanted, State.Held, Goes, Settles, Forgets;
  }

  lemma TimersFire(s: State)
    requires s.Valid()
    ensures s.open.Some? ==> ViewOf(s.OpenFires()) == ViewOf(s).(mode := Rest, shown := true)
    ensures var next := if ViewOf(s).Kept() then Rest else Going(s.now + if s.reduced then 0 else 200);
            s.close.Some? ==> ViewOf(s.CloseFires()) == ViewOf(s).(mode := next)
    ensures s.exit.Some? ==> ViewOf(s.ExitFires()) == ViewOf(s).(mode := Rest, shown := ViewOf(s).Kept())
  {
    hide State.NeverHidesWanted;
  }

  lemma FiringIsModeStep(s: State, e: Event)
    requires s.Valid() && (e.OpenFires? || e.CloseFires? || e.ExitFires?)
    ensures ViewOf(Step(s, e)) == ModeStep(ViewOf(s), e)
  {
    TimersFire(s);
    hide State.NeverHidesWanted, State.OpenFires, State.CloseFires, State.ExitFires, View.Kept;
  }

  lemma LeavingIsModeStep(s: State, e: Event)
    requires s.Valid() && (e.Leave? || e.Blur? || e.EdgeExit?)
    ensures ViewOf(Step(s, e)) == ModeStep(ViewOf(s), e)
  {
    LeaveGoes(s);
    hide State.NeverHidesWanted, State.Leave, Goes;
  }

  lemma LookingIsModeStep(s: State, e: Event)
    requires s.Valid() && (e.Hold? || e.Reconcile?)
    ensures ViewOf(Step(s, e)) == ModeStep(ViewOf(s), e)
  {
    ReconcileSettles(if e.Hold? then s.(locks := if e.on then s.locks + {e.key} else s.locks - {e.key}) else s);
    hide State.NeverHidesWanted, State.Reconcile, Settles;
  }

  lemma ForgettingIsModeStep(s: State, e: Event)
    requires s.Valid() && (e.Reset? || e.PinTo?)
    ensures ViewOf(Step(s, e)) == ModeStep(ViewOf(s), e)
  {
    hide State.Valid, State.Held, Stays, Goes, Settles;
    assert e.PinTo? && e.pin == s.pin ==> ViewOf(Step(s, e)) == ViewOf(s).(shown := s.shown && !e.hides);
  }

  lemma HostIsModeStep(s: State, e: Event)
    requires e.Wait? || e.HostHeld? || e.Peek? || e.Reduce?
    ensures ViewOf(Step(s, e)) == ModeStep(ViewOf(s), e)
  {
    hide State.Held, Stays, Goes, Settles, Forgets;
  }

  /** Every event does to the timers and flags what it does to the mode. */
  lemma StepIsModeStep(s: State, e: Event)
    requires s.Valid()
    ensures ViewOf(Step(s, e)) == ModeStep(ViewOf(s), e)
  {
    if e.Leave? || e.Blur? || e.EdgeExit? {
      LeavingIsModeStep(s, e);
    } else if e.Hold? || e.Reconcile? {
      LookingIsModeStep(s, e);
    } else if e.OpenFires? || e.CloseFires? || e.ExitFires? {
      FiringIsModeStep(s, e);
    } else if e.EdgeEnter? || e.Enter? {
      CrossingStays(s);
      EnteringStays(s);
      hide State.EdgeEnter, State.Enter, ModeStep, ViewOf;
    } else if e.Reset? || e.PinTo? {
      ForgettingIsModeStep(s, e);
    } else {
      HostIsModeStep(s, e);
    }
  }

  function ModeRun(v: View, events: seq<Event>): View
    decreases |events|
  {
    if events == [] then v else ModeRun(ModeStep(v, events[0]), events[1..])
  }

  /** And so over every run. */
  lemma {:induction false} RunIsModeRun(s: State, events: seq<Event>)
    requires s.Valid()
    ensures ViewOf(Run(s, events)) == ModeRun(ViewOf(s), events)
    decreases |events|
  {
    hide Step, ModeStep, State.Valid, ViewOf;
    if events != [] {
      StepIsModeStep(s, events[0]);
      StepKeepsValid(s, events[0]);
      RunIsModeRun(Step(s, events[0]), events[1..]);
    }
  }

  /** A shown panel is hidden by the host, or when its way out is over and nobody
      wants it, keeps it or has pinned it; nothing else ever hides it. */
  lemma HiddenOnlyWhenDue(s: State, e: Event)
    requires s.Valid() && s.shown && !Step(s, e).shown
    ensures e.Peek? || e.PinTo? || (e == ExitFires && Due(s.exit, s.now) && !s.wanted && !s.Held() && !s.Pinned())
  {
    StepIsModeStep(s, e);
    assert ModeStep(ViewOf(s), e).shown == Step(s, e).shown;
    hide Step;
  }
}
