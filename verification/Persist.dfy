/** Debounced persistence: `src/persist.ts`.

    Everything the module keeps is kept per scope, so the steps are functions
    on one scope's `Slot`, and `Store` carries them out on the module's maps.
    A promise chain is the list of operations ever enqueued and how many of
    them have run; the operation at its head first lands on the backend, then
    settles. */
module Persist {
  import opened Options

  type Scope = string

  datatype Op = Write(text: string) | Erase

  function Effect(op: Op): Option<string> {
    match op case Write(text) => Some(text) case Erase => None
  }

  /** One scope's share of the module's state. `stored` is the backend's value,
      `landed` counts the operations that took effect there and `done` those
      that settled. */
  datatype Slot = Slot(
    pending: Option<string>, timer: bool, blocked: bool,
    issued: seq<Op>, landed: nat, done: nat, stored: Option<string>)
  {
    predicate Valid() { done <= landed <= |issued| && landed <= done + 1 && (timer ==> pending.Some?) }

    /** Nothing buffered and nothing left to run. */
    predicate Drained() { pending == None && done == |issued| }

    /** The value the scope is heading for. */
    function Heading(): Option<string> {
      if pending.Some? then pending
      else if landed < |issued| then Effect(issued[|issued| - 1])
      else stored
    }

    // ------------------------------------------------------------- the steps

    function Save(text: string): Slot {
      if blocked then this else this.(pending := Some(text), timer := true)
    }

    function Flush(): Slot {
      match pending
      case None => this.(timer := false)
      case Some(text) => this.(timer := false, pending := None, issued := issued + [Write(text)])
    }

    function Delete(): Slot {
      this.(timer := false, pending := None, issued := issued + [Erase])
    }

    /** The head operation takes effect. */
    predicate CanLand() { landed == done < |issued| }

    function Land(): Slot
      requires CanLand()
    {
      this.(landed := landed + 1, stored := Effect(issued[landed]))
    }

    /** Its promise resolves; a removal lifts the write block. */
    predicate CanSettle() { done < landed <= |issued| }

    function Settle(): Slot
      requires CanSettle()
    {
      this.(done := done + 1, blocked := if issued[done] == Erase then false else blocked)
    }

    /** The head operation is refused by the backend. A save's payload is put
        back into the buffer unless something newer is there. */
    function Fail(): Slot
      requires CanLand()
    {
      var next := this.(landed := landed + 1, done := done + 1);
      match issued[landed]
      case Write(text) => if pending == None then next.(pending := Some(text)) else next
      case Erase => next
    }

    /** What a finished load does to the write block. */
    function AfterLoad(raw: Option<string>, parses: string -> bool): Slot {
      this.(blocked := raw.Some? && !parses(raw.value))
    }
  }

  // ----------------------------------------------------------- the register

  datatype Load =
    | Waiting(ticket: nat, since: nat)
    | Read(value: Option<string>, since: nat, until: nat)  // read, but not yet back
    | Answered(value: Option<string>, since: nat, until: nat)
    | Refused

  type History = h: seq<Option<string>> | h != [] witness [None]

  /** A slot with the record of what its callers have been told: `values` lists
      every value the scope has had, `marks` which of them each issued operation
      carries, `loads` the calls to load. */
  datatype World = World(slot: Slot, values: History, marks: seq<nat>, loads: seq<Load>)
  {
    function Current(): Option<string> { values[|values| - 1] }
  }

  datatype Event =
    | SaveCall(text: string) | DeleteCall | TimerFires | FlushCall
    | OpLands | OpSettles | OpFails
    | LoadCall | LoadReads(load: nat) | LoadReturns(load: nat) | LoadIsRefused(load: nat) | MarkedInvalid

  predicate Enabled(w: World, e: Event) {
    match e
    case TimerFires => w.slot.timer
    case OpLands => w.slot.CanLand()
    case OpSettles => w.slot.CanSettle()
    case OpFails => w.slot.CanLand()
    case LoadReads(i) => i < |w.loads| && w.loads[i].Waiting? && w.loads[i].ticket <= w.slot.done
    case LoadReturns(i) => i < |w.loads| && w.loads[i].Read?
    case LoadIsRefused(i) => i < |w.loads| && w.loads[i].Waiting? && w.loads[i].ticket <= w.slot.done
    case _ => true
  }

  function FlushWorld(w: World): World {
    w.(slot := w.slot.Flush(), marks := if w.slot.pending.Some? then w.marks + [|w.values| - 1] else w.marks)
  }

  function Step(w: World, e: Event, parses: string -> bool): World
    requires Enabled(w, e)
  {
    var now := |w.values| - 1;
    match e
    case SaveCall(text) =>
      if w.slot.blocked then w else w.(slot := w.slot.Save(text), values := w.values + [Some(text)])
    case DeleteCall => w.(slot := w.slot.Delete(), values := w.values + [None], marks := w.marks + [now + 1])
    case TimerFires => FlushWorld(w)
    case FlushCall => if w.slot.pending.Some? then FlushWorld(w) else w
    case OpLands => w.(slot := w.slot.Land())
    case OpSettles => w.(slot := w.slot.Settle())
    case OpFails => w.(slot := w.slot.Fail())
    case LoadCall =>
      if w.slot.pending.Some? then
        w.(slot := w.slot.AfterLoad(w.slot.pending, parses), loads := w.loads + [Answered(w.slot.pending, now, now)])
      else w.(loads := w.loads + [Waiting(|w.slot.issued|, now)])
    case LoadReads(i) => w.(loads := w.loads[i := Read(w.slot.stored, w.loads[i].since, now)])
    case LoadReturns(i) =>
      w.(slot := w.slot.AfterLoad(w.loads[i].value, parses),
         loads := w.loads[i := Answered(w.loads[i].value, w.loads[i].since, now)])
    case LoadIsRefused(i) => w.(slot := w.slot.(blocked := true), loads := w.loads[i := Refused])
    case MarkedInvalid => w.(slot := w.slot.(blocked := true))
  }

  function Initial(stored: Option<string>): World {
    World(Slot(None, false, false, [], 0, 0, stored), [stored], [], [])
  }

  /** A run: every event enabled where it happens. */
  ghost predicate Runs(w: World, events: seq<Event>, parses: string -> bool)
    decreases |events|
  {
    events != [] ==> Enabled(w, events[0]) && Runs(Step(w, events[0], parses), events[1..], parses)
  }

  ghost function After(w: World, events: seq<Event>, parses: string -> bool): World
    requires Runs(w, events, parses)
    decreases |events|
  {
    if events == [] then w else After(Step(w, events[0], parses), events[1..], parses)
  }

  // -------------------------------------------- every run keeps its register

  /** A failure that cannot bring an old value back: something newer is
      buffered, or nothing newer is under way, or it would change nothing. */
  predicate SafeFailure(s: Slot)
    requires s.CanLand()
  {
    s.pending.Some? ||
    match s.issued[s.landed]
    case Write(text) => Effect(s.issued[|s.issued| - 1]) == Some(text)
    case Erase => s.landed + 1 < |s.issued| || s.stored == None
  }

  ghost predicate OnCourse(w: World) {
    w.slot.Valid() && w.slot.Heading() == w.Current()
  }

  /** Every step but an unsafe failure keeps the slot heading for the register's
      value; an unsafe failure never does. */
  lemma StepsKeepCourse(w: World, e: Event, parses: string -> bool)
    requires OnCourse(w) && Enabled(w, e)
    ensures OnCourse(Step(w, e, parses)) <==> (e == OpFails ==> SafeFailure(w.slot))
    ensures Step(w, e, parses).slot.Valid()
  {
  }

  /** Every failure in the run is a safe one. */
  ghost predicate SafeFailures(w: World, events: seq<Event>, parses: string -> bool)
    requires Runs(w, events, parses)
    decreases |events|
  {
    events == [] ||
    ((events[0] == OpFails ==> SafeFailure(w.slot)) && SafeFailures(Step(w, events[0], parses), events[1..], parses))
  }

  lemma {:induction false} RunsKeepCourse(w: World, events: seq<Event>, parses: string -> bool)
    requires OnCourse(w) && Runs(w, events, parses) && SafeFailures(w, events, parses)
    ensures OnCourse(After(w, events, parses))
    decreases |events|
  {
    if events != [] {
      StepsKeepCourse(w, events[0], parses);
      RunsKeepCourse(Step(w, events[0], parses), events[1..], parses);
    }
  }

  /** Once a scope has drained, what is stored is the last accepted save or
      delete, whatever the interleaving, as long as no failure was unsafe. */
  lemma DrainedHoldsLastValue(stored: Option<string>, events: seq<Event>, parses: string -> bool)
    requires Runs(Initial(stored), events, parses) && SafeFailures(Initial(stored), events, parses)
    ensures var w := After(Initial(stored), events, parses);
            w.slot.Drained() ==> w.slot.stored == w.Current()
  {
    RunsKeepCourse(Initial(stored), events, parses);
  }

  /** Nothing but timers, flushes and the backend. */
  predicate IsQuiet(e: Event) { e == TimerFires || e == FlushCall || e == OpLands || e == OpSettles }

  predicate Quiet(events: seq<Event>) { forall i :: 0 <= i < |events| ==> IsQuiet(events[i]) }

  lemma QuietStep(w: World, e: Event, parses: string -> bool)
    requires w.slot.Valid() && Enabled(w, e) && IsQuiet(e)
    ensures var next := Step(w, e, parses); next.slot.Valid() && next.slot.Heading() == w.slot.Heading() && next.Current() == w.Current()
  {
  }

  lemma {:induction false} QuietKeepsHeading(w: World, events: seq<Event>, parses: string -> bool)
    requires w.slot.Valid() && Runs(w, events, parses) && Quiet(events)
    ensures var v := After(w, events, parses).slot; v.Valid() && v.Heading() == w.slot.Heading()
    ensures After(w, events, parses).Current() == w.Current()
    decreases |events|
  {
    if events != [] {
      QuietStep(w, events[0], parses);
      hide Step, Enabled, Slot.Valid, Slot.Heading;
      QuietKeepsHeading(Step(w, events[0], parses), events[1..], parses);
    }
  }

  /** A scope left to drain stores what it was heading for. So once a failure was
      not safe it ends, left alone, with another value than the register's. */
  lemma DrainingStoresHeading(w: World, events: seq<Event>, parses: string -> bool)
    requires w.slot.Valid() && Runs(w, events, parses) && Quiet(events) && After(w, events, parses).slot.Drained()
    ensures After(w, events, parses).slot.stored == w.slot.Heading()
    ensures After(w, events, parses).slot.stored == After(w, events, parses).Current() <==> w.slot.Heading() == w.Current()
  {
    QuietKeepsHeading(w, events, parses);
  }

  lemma UnsafeFailureEndsWrong(w: World, events: seq<Event>, parses: string -> bool)
    requires OnCourse(w) && w.slot.CanLand()
    requires var failed := Step(w, OpFails, parses);
             Runs(failed, events, parses) && Quiet(events) && After(failed, events, parses).slot.Drained()
    ensures var v := After(Step(w, OpFails, parses), events, parses);
            v.slot.stored == v.Current() <==> SafeFailure(w.slot)
  {
    StepsKeepCourse(w, OpFails, parses);
    DrainingStoresHeading(Step(w, OpFails, parses), events, parses);
  }

  /** A save is under way when the scope is deleted, the save fails, the delete
      lands, and a later flush writes the deleted value back. */
  lemma FailedSaveComesBack(text: string, parses: string -> bool)
    ensures var events := [SaveCall(text), FlushCall, DeleteCall, OpFails, OpLands, OpSettles, FlushCall, OpLands, OpSettles];
            && Runs(Initial(None), events, parses)
            && var w := After(Initial(None), events, parses);
               w.slot.Drained() && w.Current() == None && w.slot.stored == Some(text)
  {
    hide Step, Runs, After, Enabled;
    var tail := [OpLands, OpSettles, FlushCall, OpLands, OpSettles];
    var w1, w2, w3, w4 := FirstHalf(text, parses);
    SecondHalf(w4, text, parses);
    FirstEvent(w3, OpFails, tail, parses);
    FirstEvent(w2, DeleteCall, [OpFails] + tail, parses);
    FirstEvent(w1, FlushCall, [DeleteCall] + ([OpFails] + tail), parses);
    FirstEvent(Initial(None), SaveCall(text), [FlushCall] + ([DeleteCall] + ([OpFails] + tail)), parses);
    assert [SaveCall(text)] + ([FlushCall] + ([DeleteCall] + ([OpFails] + tail)))
        == [SaveCall(text), FlushCall, DeleteCall, OpFails, OpLands, OpSettles, FlushCall, OpLands, OpSettles];
  }

  lemma FirstHalf(text: string, parses: string -> bool) returns (w1: World, w2: World, w3: World, w4: World)
    ensures Enabled(Initial(None), SaveCall(text)) && w1 == Step(Initial(None), SaveCall(text), parses)
    ensures Enabled(w1, FlushCall) && w2 == Step(w1, FlushCall, parses)
    ensures Enabled(w2, DeleteCall) && w3 == Step(w2, DeleteCall, parses)
    ensures Enabled(w3, OpFails) && w4 == Step(w3, OpFails, parses)
    ensures w4.slot == Slot(Some(text), false, false, [Write(text), Erase], 1, 1, None) && w4.Current() == None
  {
    w1 := Step(Initial(None), SaveCall(text), parses);
    w2 := Step(w1, FlushCall, parses);
    w3 := Step(w2, DeleteCall, parses);
    w4 := Step(w3, OpFails, parses);
  }

  lemma SecondHalf(w4: World, text: string, parses: string -> bool)
    requires w4.slot == Slot(Some(text), false, false, [Write(text), Erase], 1, 1, None) && w4.Current() == None
    ensures var events := [OpLands, OpSettles, FlushCall, OpLands, OpSettles];
            && Runs(w4, events, parses)
            && var w := After(w4, events, parses);
               w.slot.Drained() && w.Current() == None && w.slot.stored == Some(text)
  {
    var w5 := Step(w4, OpLands, parses);
    var w6 := Step(w5, OpSettles, parses);
    var w7 := Step(w6, FlushCall, parses);
    var w8 := Step(w7, OpLands, parses);
    var w9 := Step(w8, OpSettles, parses);
    assert w7.slot == Slot(None, false, false, [Write(text), Erase, Write(text)], 2, 2, None);
    assert Runs(w9, [], parses) && After(w9, [], parses) == w9;
    assert w9.slot.Drained() && w9.Current() == None && w9.slot.stored == Some(text);
    hide Step, Runs, After;
    FirstEvent(w8, OpSettles, [], parses);
    FirstEvent(w7, OpLands, [OpSettles] + [], parses);
    FirstEvent(w6, FlushCall, [OpLands] + ([OpSettles] + []), parses);
    FirstEvent(w5, OpSettles, [FlushCall] + ([OpLands] + ([OpSettles] + [])), parses);
    FirstEvent(w4, OpLands, [OpSettles] + ([FlushCall] + ([OpLands] + ([OpSettles] + []))), parses);
    assert [OpLands] + ([OpSettles] + ([FlushCall] + ([OpLands] + ([OpSettles] + [])))) == [OpLands, OpSettles, FlushCall, OpLands, OpSettles];
  }

  /** One more event in front of a run. */
  lemma FirstEvent(w: World, e: Event, events: seq<Event>, parses: string -> bool)
    requires Enabled(w, e) && Runs(Step(w, e, parses), events, parses)
    ensures Runs(w, [e] + events, parses)
    ensures After(w, [e] + events, parses) == After(Step(w, e, parses), events, parses)
  {
    assert ([e] + events)[1..] == events;
  }

  // ------------------------------------------- order, and what a load answers

  /** In runs without failures: every issued operation carries the value its
      mark names, later ones later values, and the backend holds what the last
      landed one carries. */
  ghost predicate InOrder(w: World) {
    var s := w.slot;
    && s.Valid() && |w.marks| == |s.issued|
    && (forall k :: 0 <= k < |w.marks| ==> w.marks[k] < |w.values| && w.values[w.marks[k]] == Effect(s.issued[k]))
    && (forall k, l :: 0 <= k < l < |w.marks| ==> w.marks[k] < w.marks[l])
    && s.stored == w.values[Landed(w)]
    && (s.pending.Some? ==> s.pending == w.Current() && LastMark(w) < |w.values| - 1)
    && (s.pending == None ==> LastMark(w) == |w.values| - 1)
  }

  /** The index in `values` of the last value that landed, and of the last issued. */
  function Landed(w: World): nat
    requires w.slot.Valid() && |w.marks| == |w.slot.issued|
  {
    if w.slot.landed == 0 then 0 else w.marks[w.slot.landed - 1]
  }

  function LastMark(w: World): nat {
    if w.marks == [] then 0 else w.marks[|w.marks| - 1]
  }

  /** Each load answers with a value the register held between the call and the
      answer; one still waiting waits for the operation that carries its value. */
  ghost predicate LoadsAreTrue(w: World) {
    forall i :: 0 <= i < |w.loads| ==> LoadIsTrue(w.loads[i], w.values, w.marks)
  }

  lemma LandedAfter(w: World, ticket: nat)
    requires InOrder(w) && ticket <= w.slot.done
    ensures Landed(w) < |w.values| && Landed(w) >= if ticket == 0 then 0 else w.marks[ticket - 1]
  {
  }

  /** A value joins the record and, with `op`, an operation carrying it. */
  lemma Recorded(w: World, next: World, op: Op)
    requires InOrder(w) && next.slot.Valid() && next.slot.landed == w.slot.landed && next.slot.stored == w.slot.stored
    requires w.values <= next.values && (|next.values| > |w.values| || LastMark(w) < |w.values| - 1)
    requires next.slot.issued == w.slot.issued + [op] && next.marks == w.marks + [|next.values| - 1]
    requires Effect(op) == next.Current() && next.slot.pending == None
    ensures InOrder(next)
  {
    assert forall k :: 0 <= k < |w.marks| ==> w.marks[k] <= LastMark(w);
    assert forall k :: 0 <= k < |w.marks| ==> next.marks[k] == w.marks[k] && next.slot.issued[k] == w.slot.issued[k];
  }

  lemma SaveKeepsOrder(w: World, text: string)
    requires InOrder(w) && !w.slot.blocked
    ensures InOrder(w.(slot := w.slot.Save(text), values := w.values + [Some(text)]))
  {
  }

  lemma DeleteKeepsOrder(w: World)
    requires InOrder(w)
    ensures InOrder(w.(slot := w.slot.Delete(), values := w.values + [None], marks := w.marks + [|w.values|]))
  {
    var next := w.(slot := w.slot.Delete(), values := w.values + [None], marks := w.marks + [|w.values|]);
    Recorded(w, next, Erase);
  }

  lemma FlushKeepsOrder(w: World)
    requires InOrder(w)
    ensures InOrder(FlushWorld(w))
  {
    if w.slot.pending.Some? {
      Recorded(w, FlushWorld(w), Write(w.slot.pending.value));
    }
  }

  lemma LandKeepsOrder(w: World)
    requires InOrder(w) && w.slot.CanLand()
    ensures InOrder(w.(slot := w.slot.Land()))
  {
  }

  /** Loads, marks and settlements move nothing the order is about. */
  lemma BlockKeepsOrder(w: World, next: World)
    requires InOrder(w) && next.values == w.values && next.marks == w.marks && next.slot.Valid()
    requires var s, t := w.slot, next.slot;
             t.pending == s.pending && t.issued == s.issued && t.landed == s.landed && t.stored == s.stored
    ensures InOrder(next)
  {
  }

  lemma StepKeepsOrder(w: World, e: Event, parses: string -> bool)
    requires InOrder(w) && Enabled(w, e) && e != OpFails
    ensures InOrder(Step(w, e, parses))
  {
    assert w.slot.Valid();
    hide InOrder, Slot.Save, Slot.Delete, Slot.Land, FlushWorld;
    match e
    case SaveCall(text) =>
      if !w.slot.blocked {
        SaveKeepsOrder(w, text);
      }
    case DeleteCall => DeleteKeepsOrder(w);
    case TimerFires => FlushKeepsOrder(w);
    case FlushCall => FlushKeepsOrder(w);
    case OpLands => LandKeepsOrder(w);
    case OpSettles => BlockKeepsOrder(w, Step(w, e, parses));
    case LoadCall => BlockKeepsOrder(w, Step(w, e, parses));
    case LoadReads(_) => BlockKeepsOrder(w, Step(w, e, parses));
    case LoadReturns(_) => BlockKeepsOrder(w, Step(w, e, parses));
    case LoadIsRefused(_) => BlockKeepsOrder(w, Step(w, e, parses));
    case MarkedInvalid => BlockKeepsOrder(w, Step(w, e, parses));
  }

  lemma StepOnlyAdds(w: World, e: Event, parses: string -> bool)
    requires Enabled(w, e)
    ensures var next := Step(w, e, parses); w.values <= next.values && w.marks <= next.marks && |w.loads| <= |next.loads|
  {
  }

  ghost predicate HeldWithin(value: Option<string>, values: History, since: nat, until: nat) {
    since <= until < |values| && exists j :: since <= j <= until && values[j] == value
  }

  /** What a load has read or answers is a value from its own span. */
  ghost predicate LoadIsTrue(load: Load, values: History, marks: seq<nat>) {
    match load
    case Waiting(ticket, since) =>
      ticket <= |marks| && since < |values| && since == if ticket == 0 then 0 else marks[ticket - 1]
    case Read(value, since, until) => HeldWithin(value, values, since, until)
    case Answered(value, since, until) => HeldWithin(value, values, since, until)
    case Refused => true
  }

  lemma LoadStaysTrue(load: Load, values: History, marks: seq<nat>, values': History, marks': seq<nat>)
    requires LoadIsTrue(load, values, marks) && values <= values' && marks <= marks'
    ensures LoadIsTrue(load, values', marks')
  {
    if load.Answered? || load.Read? {
      var j :| load.since <= j <= load.until && values[j] == load.value;
      assert values'[j] == values[j];
    }
  }

  lemma NewLoadIsTrue(w: World, parses: string -> bool)
    requires InOrder(w)
    ensures var next := Step(w, LoadCall, parses);
            |next.loads| == |w.loads| + 1 && LoadIsTrue(next.loads[|w.loads|], next.values, next.marks)
  {
    assert w.values[|w.values| - 1] == w.Current();
  }

  lemma AnswerIsTrue(w: World, i: nat, parses: string -> bool)
    requires InOrder(w) && Enabled(w, LoadReads(i)) && LoadIsTrue(w.loads[i], w.values, w.marks)
    ensures var next := Step(w, LoadReads(i), parses); LoadIsTrue(next.loads[i], next.values, next.marks)
  {
    LandedAfter(w, w.loads[i].ticket);
    assert w.values[Landed(w)] == w.slot.stored;
  }

  lemma ReturnIsTrue(w: World, i: nat, parses: string -> bool)
    requires InOrder(w) && Enabled(w, LoadReturns(i)) && LoadIsTrue(w.loads[i], w.values, w.marks)
    ensures var next := Step(w, LoadReturns(i), parses); LoadIsTrue(next.loads[i], next.values, next.marks)
  {
    var load := w.loads[i];
    var j :| load.since <= j <= load.until && w.values[j] == load.value;
    assert load.since <= j <= |w.values| - 1;
  }

  lemma StepKeepsLoads(w: World, e: Event, parses: string -> bool)
    requires InOrder(w) && LoadsAreTrue(w) && Enabled(w, e) && e != OpFails
    ensures LoadsAreTrue(Step(w, e, parses))
  {
    var next := Step(w, e, parses);
    StepOnlyAdds(w, e, parses);
    forall i | 0 <= i < |next.loads|
      ensures LoadIsTrue(next.loads[i], next.values, next.marks)
    {
      if i < |w.loads| {
        LoadStaysTrue(w.loads[i], w.values, w.marks, next.values, next.marks);
        if e == LoadReads(i) {
          AnswerIsTrue(w, i, parses);
        }
        if e == LoadReturns(i) {
          ReturnIsTrue(w, i, parses);
        }
      } else {
        NewLoadIsTrue(w, parses);
      }
    }
  }

  predicate NoFailures(events: seq<Event>) { OpFails !in events }

  lemma {:induction false} RunKeepsOrder(w: World, events: seq<Event>, parses: string -> bool)
    requires InOrder(w) && LoadsAreTrue(w) && Runs(w, events, parses) && NoFailures(events)
    ensures InOrder(After(w, events, parses)) && LoadsAreTrue(After(w, events, parses))
    decreases |events|
  {
    if events != [] {
      StepKeepsOrder(w, events[0], parses);
      StepKeepsLoads(w, events[0], parses);
      RunKeepsOrder(Step(w, events[0], parses), events[1..], parses);
    }
  }

  /** Without failures, in every interleaving of save, delete, timer, flush,
      backend and load: writes and removes take effect in call order, and every
      load answers a value the scope held between the call and the answer. */
  lemma PersistIsARegister(stored: Option<string>, events: seq<Event>, parses: string -> bool)
    requires Runs(Initial(stored), events, parses) && NoFailures(events)
    ensures InOrder(After(Initial(stored), events, parses)) && LoadsAreTrue(After(Initial(stored), events, parses))
    ensures var w := After(Initial(stored), events, parses); w.slot.Drained() ==> w.slot.stored == w.Current()
  {
    RunKeepsOrder(Initial(stored), events, parses);
  }

  // ------------------------------------------------------- the write block

  /** An unreadable value, blocked, with nothing on its way to replace it and no
      load on its way back with anything else. */
  predicate Protected(w: World, text: string, parses: string -> bool) {
    && w.slot.blocked && w.slot.Drained() && w.slot.landed == w.slot.done && w.slot.stored == Some(text) && !parses(text)
    && forall i :: 0 <= i < |w.loads| && w.loads[i].Read? ==> w.loads[i].value == Some(text)
  }

  /** A stored value that will not parse, once its scope is blocked and drained,
      survives every run in which the scope is not deleted: no save can replace it. */
  lemma {:induction false} DamagedValueSurvives(w: World, events: seq<Event>, text: string, parses: string -> bool)
    requires Protected(w, text, parses) && Runs(w, events, parses) && DeleteCall !in events
    ensures Protected(After(w, events, parses), text, parses)
    decreases |events|
  {
    if events != [] {
      DamagedValueSurvives(Step(w, events[0], parses), events[1..], text, parses);
    }
  }

  /** What lifts the block: a removal that settles, and a load that comes back with
      nothing stored or with a value that parses. */
  predicate Lifts(w: World, e: Event, parses: string -> bool)
    requires Enabled(w, e)
  {
    match e
    case OpSettles => w.slot.issued[w.slot.done] == Erase
    case LoadCall => w.slot.pending.Some? && parses(w.slot.pending.value)
    case LoadReturns(i) => w.loads[i].value == None || parses(w.loads[i].value.value)
    case _ => false
  }

  /** What sets it: a load that comes back with text that does not parse, or is
      refused, and the call of a caller who could not read the value. */
  predicate Blocks(w: World, e: Event, parses: string -> bool)
    requires Enabled(w, e)
  {
    match e
    case LoadCall => w.slot.pending.Some? && !parses(w.slot.pending.value)
    case LoadReturns(i) => w.loads[i].value.Some? && !parses(w.loads[i].value.value)
    case LoadIsRefused(_) => true
    case MarkedInvalid => true
    case _ => false
  }

  /** After any event a scope is blocked exactly when the event blocks it, or it was
      and the event does not lift the block; a blocked one takes no save, an open one
      buffers its text and arms the timer. */
  lemma BlockedAfterIff(w: World, e: Event, parses: string -> bool)
    requires Enabled(w, e)
    ensures Step(w, e, parses).slot.blocked <==> Blocks(w, e, parses) || (w.slot.blocked && !Lifts(w, e, parses))
    ensures e.SaveCall? && w.slot.blocked ==> Step(w, e, parses) == w
    ensures e.SaveCall? && !w.slot.blocked ==> Step(w, e, parses).slot == w.slot.(pending := Some(e.text), timer := true)
  {
  }

  ghost predicate BlockedThroughout(w: World, events: seq<Event>, parses: string -> bool)
    requires Runs(w, events, parses)
    decreases |events|
  {
    w.slot.blocked && (events == [] || BlockedThroughout(Step(w, events[0], parses), events[1..], parses))
  }

  ghost predicate NothingLifts(w: World, events: seq<Event>, parses: string -> bool)
    requires Runs(w, events, parses)
    decreases |events|
  {
    events == [] || (!Lifts(w, events[0], parses) && NothingLifts(Step(w, events[0], parses), events[1..], parses))
  }

  /** A blocked scope stays blocked all through a run, and so refuses its every save,
      exactly when nothing in the run lifts the block. */
  lemma {:induction false} BlockLastsIff(w: World, events: seq<Event>, parses: string -> bool)
    requires w.slot.blocked && Runs(w, events, parses)
    ensures BlockedThroughout(w, events, parses) <==> NothingLifts(w, events, parses)
    decreases |events|
  {
    if events != [] {
      var next := Step(w, events[0], parses);
      assert Lifts(w, events[0], parses) ==> !Blocks(w, events[0], parses);
      BlockedAfterIff(w, events[0], parses);
      hide Step, Enabled, Lifts, Blocks;
      if next.slot.blocked {
        BlockLastsIff(next, events[1..], parses);
      }
    }
  }

  /** Nothing buffered or under way, and no load on its way back with an older value. */
  predicate AtRest(w: World) {
    && w.slot.Drained() && w.slot.landed == w.slot.done
    && forall i :: 0 <= i < |w.loads| && w.loads[i].Read? ==> w.loads[i].value == w.slot.stored
  }

  lemma {:induction false} ProtectedIsBlockedThroughout(w: World, events: seq<Event>, text: string, parses: string -> bool)
    requires Protected(w, text, parses) && Runs(w, events, parses) && DeleteCall !in events
    ensures BlockedThroughout(w, events, parses)
    decreases |events|
  {
    if events != [] {
      assert [events[0]] + events[1..] == events;
      DamagedValueSurvives(w, [events[0]], text, parses);
      assert After(w, [events[0]], parses) == Step(w, events[0], parses);
      ProtectedIsBlockedThroughout(Step(w, events[0], parses), events[1..], text, parses);
    }
  }

  lemma {:induction false} EndsBlocked(w: World, events: seq<Event>, parses: string -> bool)
    requires Runs(w, events, parses) && BlockedThroughout(w, events, parses)
    ensures After(w, events, parses).slot.blocked
    decreases |events|
  {
    if events != [] {
      EndsBlocked(Step(w, events[0], parses), events[1..], parses);
    }
  }

  /** One more load, from a scope at rest. */
  function LoadAgain(w: World): seq<Event> { [LoadCall, LoadReads(|w.loads|), LoadReturns(|w.loads|)] }

  lemma LoadingAgainLifts(w: World, parses: string -> bool)
    requires w.slot.blocked && AtRest(w) && (w.slot.stored == None || parses(w.slot.stored.value))
    ensures Runs(w, LoadAgain(w), parses)
    ensures var v := After(w, LoadAgain(w), parses); !v.slot.blocked && v.slot.stored == w.slot.stored && v.slot.pending == None
  {
    var n := |w.loads|;
    var w1 := Step(w, LoadCall, parses);
    var w2 := Step(w1, LoadReads(n), parses);
    var w3 := Step(w2, LoadReturns(n), parses);
    assert w1.loads[n] == Waiting(|w.slot.issued|, |w.values| - 1);
    assert w2.loads[n] == Read(w.slot.stored, |w.values| - 1, |w.values| - 1);
    assert Runs(w3, [], parses) && After(w3, [], parses) == w3;
    hide Step, Runs, After;
    FirstEvent(w2, LoadReturns(n), [], parses);
    FirstEvent(w1, LoadReads(n), [LoadReturns(n)] + [], parses);
    FirstEvent(w, LoadCall, [LoadReads(n)] + ([LoadReturns(n)] + []), parses);
    assert [LoadCall] + ([LoadReads(n)] + ([LoadReturns(n)] + [])) == LoadAgain(w);
  }

  /** A blocked scope at rest goes on refusing saves, in every run in which it is not
      deleted, exactly when it stores a value that does not parse. So a scope marked
      invalid over a value that does parse is open again after the next load. */
  lemma BlockIsLastingIff(w: World, parses: string -> bool)
    requires w.slot.blocked && AtRest(w)
    ensures (forall events :: Runs(w, events, parses) && DeleteCall !in events ==> BlockedThroughout(w, events, parses))
       <==> w.slot.stored.Some? && !parses(w.slot.stored.value)
  {
    if w.slot.stored.Some? && !parses(w.slot.stored.value) {
      forall events | Runs(w, events, parses) && DeleteCall !in events
        ensures BlockedThroughout(w, events, parses)
      {
        ProtectedIsBlockedThroughout(w, events, w.slot.stored.value, parses);
      }
    } else {
      LoadingAgainLifts(w, parses);
      hide After, Runs;
      if BlockedThroughout(w, LoadAgain(w), parses) {
        EndsBlocked(w, LoadAgain(w), parses);
      }
      assert DeleteCall !in LoadAgain(w);
    }
  }
}
