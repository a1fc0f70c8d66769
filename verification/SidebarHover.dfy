/** The hover arbiter of `src/sidebarHover.ts`: three timers, the locks, and the
    sidebar flags of `src/state/store.ts` it reads and presents to. Times are in
    milliseconds; an armed timer is its deadline. */
module SidebarHover {
  import opened Options

  const OPEN_INTENT: nat := 100
  const CLOSE_INTENT: nat := 280
  const EXIT: nat := 200

  datatype Phase = Hidden | Open | Closing

  /** A phase handed to the host, and what held at that moment. */
  datatype Presented = Presented(phase: Phase, wanted: bool, held: bool, pinned: bool)

  datatype State = State(
    wanted: bool, open: Option<nat>, close: Option<nat>, exit: Option<nat>, closing: bool, locks: set<string>,
    pin: Option<bool>, shown: bool, hostHeld: bool, reduced: bool, now: nat, log: seq<Presented>)
  {
    /** Less whenever a timer has run out: the close timer may arm the exit timer. */
    function Armed(): nat { (if open.Some? then 4 else 0) + (if close.Some? then 2 else 0) + if exit.Some? then 1 else 0 }

    /** The setting is unknown until the configuration has been read. */
    predicate Pinned() { pin == Some(true) }

    predicate Held() { locks != {} || hostHeld }

    function ClearOpen(): State { this.(open := None) }

    function ClearClose(): State { this.(close := None, exit := None) }

    /** The host takes a phase: only open and hidden move the panel. */
    function Present(phase: Phase): State {
      this.(shown := if phase == Closing then shown else phase == Open && !Pinned(),
            log := log + [Presented(phase, wanted, Held(), Pinned())])
    }

    function Show(): (t: State)
      ensures t.Armed() == 0
    {
      var s := ClearOpen().ClearClose().(closing := false);
      if Pinned() then s else s.Present(Open)
    }

    function Leave(): State {
      var s := this.(wanted := false).ClearOpen();
      if Pinned() || !shown || Held() || close.Some? || closing then s else s.(close := Some(now + CLOSE_INTENT))
    }

    function CloseFires(): (t: State)
      requires close.Some?
      ensures t.Armed() < Armed()
    {
      var s := this.(close := None);
      if wanted || Held() || Pinned() then s
      else s.(closing := true).Present(Closing).(exit := Some(now + if reduced then 0 else EXIT))
    }

    function ExitFires(): (t: State)
      requires exit.Some?
      ensures t.Armed() < Armed()
    {
      var s := this.(exit := None);
      if wanted || Held() then s.Show() else s.(closing := false).Present(Hidden)
    }

    function OpenFires(): (t: State)
      requires open.Some?
      ensures t.Armed() < Armed()
    {
      var s := this.(open := None);
      if wanted && !Pinned() then s.Show() else s
    }

    function Reconcile(): State {
      if Pinned() then ClearOpen().ClearClose().(closing := false)
      else if wanted || Held() then if closing then ClearClose().Show() else ClearClose()
      else Leave()
    }

    function EdgeEnter(): State {
      var s := this.(wanted := true).ClearClose();
      if Pinned() then s
      else if closing || shown then s.Show()
      else if open.Some? then s
      else s.(open := Some(now + OPEN_INTENT))
    }

    function EdgeExit(outsidePanel: bool): State { if !shown || outsidePanel then ClearOpen().Leave() else ClearOpen() }

    function Enter(): State {
      var s := this.(wanted := true);
      if shown || closing then s.Show() else s.ClearClose()
    }

    function Hold(key: string, on: bool): State {
      this.(locks := if on then locks + {key} else locks - {key}).Reconcile()
    }

    function Reset(): State { ClearOpen().ClearClose().(wanted := false, closing := false, locks := {}) }

    function Blur(): State { ClearOpen().Leave() }

    /** The pin setting changes, hiding the panel or not; a change resets. */
    function PinTo(on: Option<bool>, hides: bool): State {
      var s := this.(pin := on, shown := if hides then false else shown);
      if on == pin then s else s.Reset()
    }

    ghost predicate AtMostOneTimer() {
      && (open.Some? ==> close == None && exit == None)
      && (close.Some? ==> exit == None)
    }

    /** No animation towards hidden is presented while anything wants the panel. */
    ghost predicate NeverHidesWanted() {
      forall p :: p in log && p.phase != Open ==> !p.wanted && !p.held && !p.pinned
    }

    ghost predicate Valid() {
      && AtMostOneTimer()
      && (closing <==> exit.Some?)
      && (open.Some? || close.Some? || exit.Some? ==> !Pinned())
      && (open.Some? ==> wanted && open.value <= now + OPEN_INTENT)
      && (close.Some? ==> !wanted && close.value <= now + CLOSE_INTENT)
      && (exit.Some? ==> !wanted && exit.value <= now + EXIT)
      && NeverHidesWanted()
    }
  }

  /** Pinned or not, nothing has happened yet. */
  function Initial(pin: Option<bool>, reduced: bool): State {
    State(false, None, None, None, false, {}, pin, false, false, reduced, 0, [])
  }

  datatype Event =
    | EdgeEnter
    | EdgeExit(outsidePanel: bool)
    | Enter
    | Leave
    | Hold(key: string, on: bool)
    | Reconcile
    | Reset
    | Blur
    | OpenFires
    | CloseFires
    | ExitFires
    | Wait(ms: nat)
    | HostHeld(on: bool)
    | PinTo(pin: Option<bool>, hides: bool)
    | Peek(on: bool)
    | Reduce(on: bool)

  predicate Due(timer: Option<nat>, now: nat) { timer.Some? && timer.value <= now }

  /** One event; a timer that is not due does nothing. The host's own hold and
      panel flag may move at any time, whether or not a reconcile follows. */
  function Step(s: State, e: Event): State {
    match e
    case EdgeEnter => s.EdgeEnter()
    case EdgeExit(outside) => s.EdgeExit(outside)
    case Enter => s.Enter()
    case Leave => s.Leave()
    case Hold(key, on) => s.Hold(key, on)
    case Reconcile => s.Reconcile()
    case Reset => s.Reset()
    case Blur => s.Blur()
    case OpenFires => if Due(s.open, s.now) then s.OpenFires() else s
    case CloseFires => if Due(s.close, s.now) then s.CloseFires() else s
    case ExitFires => if Due(s.exit, s.now) then s.ExitFires() else s
    case Wait(ms) => s.(now := s.now + ms)
    case HostHeld(on) => s.(hostHeld := on)
    case PinTo(on, hides) => s.PinTo(on, hides)
    case Peek(on) => s.(shown := on && !s.Pinned())
    case Reduce(on) => s.(reduced := on)
  }

  function Run(s: State, events: seq<Event>): State
    decreases |events|
  {
    if events == [] then s else Run(Step(s, events[0]), events[1..])
  }

  lemma PresentKeeps(s: State, phase: Phase)
    requires s.NeverHidesWanted() && (phase != Open ==> !s.wanted && !s.Held() && !s.Pinned())
    ensures s.Present(phase).NeverHidesWanted()
  {
  }

  /** Showing settles every timer. */
  lemma ShowSettles(s: State)
    requires s.NeverHidesWanted()
    ensures s.Show().Valid()
  {
    PresentKeeps(s.ClearOpen().ClearClose().(closing := false), Open);
  }

  lemma LeaveKeeps(s: State)
    requires s.Valid()
    ensures s.Leave().Valid()
  {
  }

  lemma ReconcileKeeps(s: State)
    requires s.Valid()
    ensures s.Reconcile().Valid()
  {
    ShowSettles(s.ClearClose());
    LeaveKeeps(s);
    hide State.Leave, State.Show;
  }

  lemma HoldKeeps(s: State, key: string, on: bool)
    requires s.Valid()
    ensures s.Hold(key, on).Valid()
  {
    ReconcileKeeps(s.(locks := if on then s.locks + {key} else s.locks - {key}));
    hide State.Reconcile;
  }

  lemma PinToKeeps(s: State, on: Option<bool>, hides: bool)
    requires s.Valid()
    ensures s.PinTo(on, hides).Valid()
  {
  }

  lemma EnteringKeeps(s: State)
    requires s.Valid()
    ensures s.EdgeEnter().Valid() && s.Enter().Valid()
  {
    ShowSettles(s.(wanted := true));
    ShowSettles(s.(wanted := true).ClearClose());
    hide State.Show;
  }

  lemma LeavingKeeps(s: State, outsidePanel: bool)
    requires s.Valid()
    ensures s.EdgeExit(outsidePanel).Valid() && s.Blur().Valid()
  {
    LeaveKeeps(s.ClearOpen());
    hide State.Leave;
  }

  lemma OpenFiresKeeps(s: State)
    requires s.Valid() && s.open.Some?
    ensures s.OpenFires().Valid()
  {
    ShowSettles(s.(open := None));
    hide State.Show;
  }

  lemma CloseFiresKeeps(s: State)
    requires s.Valid() && s.close.Some?
    ensures s.CloseFires().Valid()
  {
    if !(s.wanted || s.Held() || s.Pinned()) {
      PresentKeeps(s.(close := None, closing := true), Closing);
    }
  }

  lemma ExitFiresKeeps(s: State)
    requires s.Valid() && s.exit.Some?
    ensures s.ExitFires().Valid()
  {
    ShowSettles(s.(exit := None));
    if !(s.wanted || s.Held()) {
      PresentKeeps(s.(exit := None, closing := false), Hidden);
    }
    hide State.Show;
  }

  /** Every event keeps the timers exclusive and the animation honest. */
  lemma StepKeepsValid(s: State, e: Event)
    requires s.Valid()
    ensures Step(s, e).Valid()
  {
    hide State.Leave, State.Reconcile, State.EdgeEnter, State.EdgeExit, State.Enter, State.Blur, State.Show;
    hide State.OpenFires, State.CloseFires, State.ExitFires, State.PinTo, State.Hold;
    match e
    case EdgeEnter => EnteringKeeps(s);
    case Enter => EnteringKeeps(s);
    case EdgeExit(outside) => LeavingKeeps(s, outside);
    case Blur => LeavingKeeps(s, true);
    case Leave => LeaveKeeps(s);
    case Reconcile => ReconcileKeeps(s);
    case Hold(key, on) => HoldKeeps(s, key, on);
    case OpenFires =>
      if s.open.Some? {
        OpenFiresKeeps(s);
      }
    case CloseFires =>
      if s.close.Some? {
        CloseFiresKeeps(s);
      }
    case ExitFires =>
      if s.exit.Some? {
        ExitFiresKeeps(s);
      }
    case Reset =>
    case Wait(_) =>
    case HostHeld(_) =>
    case PinTo(on, hides) => PinToKeeps(s, on, hides);
    case Peek(_) =>
    case Reduce(_) =>
  }

  lemma {:induction false} RunKeepsValid(s: State, events: seq<Event>)
    requires s.Valid()
    ensures Run(s, events).Valid()
    decreases |events|
  {
    if events != [] {
      StepKeepsValid(s, events[0]);
      RunKeepsValid(Step(s, events[0]), events[1..]);
    }
  }

  /** From a fresh arbiter, in any order of pointer, timer, lock and host events. */
  lemma AnyRunIsOrderly(pin: Option<bool>, reduced: bool, events: seq<Event>)
    ensures var s := Run(Initial(pin, reduced), events);
            s.AtMostOneTimer() && (s.closing <==> s.exit.Some?) && s.NeverHidesWanted()
  {
    RunKeepsValid(Initial(pin, reduced), events);
  }

  // ------------------------------------------------------------ left alone

  predicate OpenNext(s: State) {
    s.open.Some? && (s.close.Some? ==> s.open.value <= s.close.value) && (s.exit.Some? ==> s.open.value <= s.exit.value)
  }

  predicate CloseNext(s: State) {
    s.close.Some? && !OpenNext(s) && (s.exit.Some? ==> s.close.value <= s.exit.value)
  }

  function Later(a: nat, b: nat): nat { if a <= b then b else a }

  function NextAt(s: State): nat
    requires s.Armed() > 0
  {
    if OpenNext(s) then s.open.value else if CloseNext(s) then s.close.value else s.exit.value
  }

  /** The timer that is next runs out. */
  function Fire(s: State): (t: State)
    requires s.Armed() > 0
    ensures t.Armed() < s.Armed()
  {
    if OpenNext(s) then s.OpenFires() else if CloseNext(s) then s.CloseFires() else s.ExitFires()
  }

  /** Nothing happens up to `until` but the armed timers, each at its time. */
  function Elapse(s: State, until: nat): State
    decreases s.Armed()
  {
    if s.Armed() > 0 && NextAt(s) <= until then Elapse(Fire(s.(now := Later(s.now, NextAt(s)))), until)
    else s.(now := Later(s.now, until))
  }

  lemma ElapseExit(s: State, until: nat)
    requires s.open == None && s.close == None && s.exit.Some? && s.exit.value <= until
    requires !s.wanted && !s.Held()
    ensures !Elapse(s, until).shown && Elapse(s, until).Armed() == 0
  {
    var t := s.(now := Later(s.now, s.exit.value)).ExitFires();
    assert Elapse(s, until) == Elapse(t, until);
  }

  lemma ElapseClose(s: State, until: nat)
    requires s.open == None && s.close.Some? && s.exit == None && s.close.value <= until
    requires !s.wanted && !s.Held() && !s.Pinned()
    ensures Elapse(s, until) == Elapse(s.(now := Later(s.now, s.close.value)).CloseFires(), until)
  {
  }

  /** The time the panel takes to slide out. */
  function ExitTime(s: State): nat { if s.reduced then 0 else EXIT }

  /** Left alone, a shown and unheld panel is hidden 480 ms after the leave at the
      latest, 280 ms where motion is reduced, and no timer is left. */
  lemma LeaveHides(s: State)
    requires s.Valid() && s.shown && !s.Pinned() && !s.Held()
    ensures var after := Elapse(s.Leave(), s.now + CLOSE_INTENT + ExitTime(s)); !after.shown && after.Armed() == 0
  {
    var t, until := s.Leave(), s.now + CLOSE_INTENT + ExitTime(s);
    if t.exit.Some? {
      ElapseExit(t, until);
    } else {
      ElapseClose(t, until);
      ElapseExit(t.(now := Later(t.now, t.close.value)).CloseFires(), until);
    }
  }

  /** From a panel at rest it is still there until the very last millisecond. */
  lemma LeaveHidesNoSooner(s: State, until: nat)
    requires s.Valid() && s.shown && !s.Pinned() && !s.Held() && s.close == None && !s.closing
    requires s.now <= until < s.now + CLOSE_INTENT + ExitTime(s)
    ensures Elapse(s.Leave(), until).shown
  {
    var t := s.Leave();
    if t.close.value <= until {
      ElapseClose(t, until);
    }
  }

  /** A held panel outlasts every timer, even those armed before the hold. */
  lemma {:induction false} HeldPanelStays(s: State, until: nat)
    requires s.Valid() && s.shown && !s.Pinned() && s.Held()
    ensures Elapse(s, until).shown
    decreases s.Armed()
  {
    if s.Armed() > 0 && NextAt(s) <= until {
      var t := s.(now := Later(s.now, NextAt(s)));
      if OpenNext(t) {
        OpenFiresKeeps(t);
      } else if CloseNext(t) {
        CloseFiresKeeps(t);
      } else {
        ExitFiresKeeps(t);
      }
      hide State.Valid, Elapse;
      HeldPanelStays(Fire(t), until);
      ElapseFires(s, until);
    }
  }

  lemma ElapseFires(s: State, until: nat)
    requires s.Armed() > 0 && NextAt(s) <= until
    ensures Elapse(s, until) == Elapse(Fire(s.(now := Later(s.now, NextAt(s)))), until)
  {
  }

  /** Crossing the edge opens a hidden panel exactly after the dwell. */
  lemma DwellOpens(s: State, until: nat)
    requires s.Valid() && !s.shown && !s.Pinned() && !s.closing && s.open == None && s.now <= until
    ensures Elapse(s.EdgeEnter(), until).shown <==> s.now + OPEN_INTENT <= until
  {
    var t := s.EdgeEnter();
    if t.open.value <= until {
      assert Elapse(t, until) == Elapse(t.(now := t.open.value).OpenFires(), until);
    }
  }

  /** Leaving the edge before the dwell is over leaves the panel hidden for good. */
  lemma FastCrossingOpensNothing(s: State, leftAt: nat, until: nat)
    requires s.Valid() && !s.shown && !s.Pinned() && !s.closing && s.open == None
    requires s.now <= leftAt < s.now + OPEN_INTENT && leftAt <= until
    ensures !Elapse(Elapse(s.EdgeEnter(), leftAt).EdgeExit(true), until).shown
    ensures !Elapse(Elapse(s.EdgeEnter(), leftAt).EdgeExit(false), until).shown
  {
    var t := s.EdgeEnter();
    assert Elapse(t, leftAt) == t.(now := leftAt);
  }

  // ------------------------------------------------- a pin that does not reset

  /** The exit timer does not ask for the pin. For a host that let the pin change
      without a reset, which the store's subscriber never does, the panel would be
      hidden under it exactly when an unheld exit comes due. */
  lemma PinWithoutResetIff(s: State, until: nat)
    requires s.Valid()
    ensures Elapse(s.(pin := Some(true)), until).NeverHidesWanted() <==> !(s.exit.Some? && s.exit.value <= until && !s.Held())
  {
    var p := s.(pin := Some(true));
    if p.Armed() > 0 && NextAt(p) <= until {
      var t := p.(now := Later(p.now, NextAt(p)));
      ElapseFires(p, until);
      if s.exit.Some? && !s.Held() {
        assert Fire(t).log[|s.log|] == Presented(Hidden, s.wanted, false, true);
        assert !Fire(t).NeverHidesWanted();
      }
      assert Fire(t).Armed() == 0 && Elapse(Fire(t), until).log == Fire(t).log;
    }
  }

  /** An ordinary run comes to an unheld exit that is due. */
  lemma AnExitIsReached()
    ensures var s := Run(Initial(Some(false), false), [Event.Peek(true), Event.Leave, Event.Wait(280), Event.CloseFires, Event.Wait(200)]);
            s.Valid() && Due(s.exit, s.now) && !s.Held()
  {
    var events := [Event.Peek(true), Event.Leave, Event.Wait(280), Event.CloseFires, Event.Wait(200)];
    var s0 := Initial(Some(false), false);
    var s1 := Step(s0, Event.Peek(true));
    var s2 := Step(s1, Event.Leave);
    var s3 := Step(s2, Event.Wait(280));
    var s4 := Step(s3, Event.CloseFires);
    var s5 := Step(s4, Event.Wait(200));
    assert Due(s5.exit, s5.now) && !s5.Held();
    hide Step, State.Valid;
    assert Run(s4, events[4..]) == Run(s5, events[5..]) == s5;
    assert Run(s3, events[3..]) == Run(s4, events[4..]);
    assert Run(s2, events[2..]) == Run(s3, events[3..]);
    assert Run(s1, events[1..]) == Run(s2, events[2..]);
    RunKeepsValid(s0, events);
  }
}
