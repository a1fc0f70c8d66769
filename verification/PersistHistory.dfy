/** Persistence told from the calls alone: what a scope's value is at each point of a
    run, what is stored and loaded of it, and when saves are refused. */
module PersistHistory {
  import opened Options
  import opened Persist

  /** The world before event `n`. */
  ghost function Before(stored: Option<string>, events: seq<Event>, n: nat, parses: string -> bool): World
    requires Runs(Initial(stored), events, parses) && n <= |events|
  {
    FrontRuns(Initial(stored), events, n, parses);
    After(Initial(stored), events[..n], parses)
  }

  lemma {:induction false} FrontRuns(w: World, events: seq<Event>, n: nat, parses: string -> bool)
    requires Runs(w, events, parses) && n <= |events|
    ensures Runs(w, events[..n], parses)
    ensures n < |events| ==> Enabled(After(w, events[..n], parses), events[n])
    ensures n < |events| ==> Runs(w, events[..n + 1], parses)
    ensures n < |events| ==> After(w, events[..n + 1], parses) == Step(After(w, events[..n], parses), events[n], parses)
    decreases n
  {
    hide Step, Enabled;
    if n == 0 {
      if events != [] {
        assert events[..1][1..] == [];
      }
    } else {
      FrontRuns(Step(w, events[0], parses), events[1..], n - 1, parses);
      assert events[..n][1..] == events[1..][..n - 1];
      assert n < |events| ==> events[..n + 1][1..] == events[1..][..n];
    }
  }

  lemma NextIs(stored: Option<string>, events: seq<Event>, n: nat, parses: string -> bool)
    requires Runs(Initial(stored), events, parses) && n < |events|
    ensures Enabled(Before(stored, events, n, parses), events[n])
    ensures Before(stored, events, n + 1, parses) == Step(Before(stored, events, n, parses), events[n], parses)
  {
    FrontRuns(Initial(stored), events, n, parses);
  }

  lemma FirstIs(stored: Option<string>, events: seq<Event>, parses: string -> bool)
    requires Runs(Initial(stored), events, parses)
    ensures Before(stored, events, 0, parses) == Initial(stored)
    ensures Before(stored, events, |events|, parses) == After(Initial(stored), events, parses)
  {
    assert events[..0] == [] && events[..|events|] == events;
  }

  // --------------------------------------------------------------- the value

  /** The scope's value before event `n`: what the last delete or accepted save made
      it. A save is accepted unless the scope is blocked just then. */
  ghost function Value(stored: Option<string>, events: seq<Event>, n: nat, parses: string -> bool): Option<string>
    requires Runs(Initial(stored), events, parses) && n <= |events|
  {
    if n == 0 then stored
    else
      match events[n - 1]
      case SaveCall(text) =>
        if Before(stored, events, n - 1, parses).slot.blocked then Value(stored, events, n - 1, parses) else Some(text)
      case DeleteCall => None
      case _ => Value(stored, events, n - 1, parses)
  }

  /** The last entry of the record is the value, and the record only grows. */
  lemma {:induction false} RecordIsValue(stored: Option<string>, events: seq<Event>, n: nat, parses: string -> bool)
    requires Runs(Initial(stored), events, parses) && n <= |events|
    ensures Before(stored, events, n, parses).Current() == Value(stored, events, n, parses)
    decreases n
  {
    if n == 0 {
      FirstIs(stored, events, parses);
    } else {
      RecordIsValue(stored, events, n - 1, parses);
      NextIs(stored, events, n - 1, parses);
      hide Before, Runs;
    }
  }

  /** With safe failures only, what a drained scope stores is its value. */
  lemma DrainedStoresTheValue(stored: Option<string>, events: seq<Event>, parses: string -> bool)
    requires Runs(Initial(stored), events, parses) && SafeFailures(Initial(stored), events, parses)
    ensures var w := After(Initial(stored), events, parses);
            w.slot.Drained() ==> w.slot.stored == Value(stored, events, |events|, parses)
  {
    DrainedHoldsLastValue(stored, events, parses);
    RecordIsValue(stored, events, |events|, parses);
    FirstIs(stored, events, parses);
  }

  // --------------------------------------------------------------- the loads

  /** Event `k` is the call of load `i`: `i` loads were called before it. */
  ghost predicate Calls(stored: Option<string>, events: seq<Event>, k: nat, i: nat, parses: string -> bool)
    requires Runs(Initial(stored), events, parses) && k < |events|
  {
    events[k] == LoadCall && |Before(stored, events, k, parses).loads| == i
  }

  /** Event `m` answers load `i`: its return, or its call when a buffered text answers it. */
  ghost predicate Ends(stored: Option<string>, events: seq<Event>, m: nat, i: nat, parses: string -> bool)
    requires Runs(Initial(stored), events, parses) && m < |events|
  {
    events[m] == LoadReturns(i) || Calls(stored, events, m, i, parses)
  }

  ghost function Length(stored: Option<string>, events: seq<Event>, n: nat, parses: string -> bool): nat
    requires Runs(Initial(stored), events, parses) && n <= |events|
  {
    |Before(stored, events, n, parses).values|
  }

  /** The span a load records is that between its call and its answer. */
  ghost predicate Noted(stored: Option<string>, events: seq<Event>, n: nat, i: nat, load: Load, parses: string -> bool)
    requires Runs(Initial(stored), events, parses) && n <= |events|
  {
    match load
    case Waiting(_, since) => NotedSince(stored, events, n, i, since, parses)
    case Read(_, since, _) => NotedSince(stored, events, n, i, since, parses)
    case Answered(_, since, until) =>
      exists k, m :: 0 <= k <= m < n && Calls(stored, events, k, i, parses) && since + 1 == Length(stored, events, k, parses)
                     && Ends(stored, events, m, i, parses) && until + 1 == Length(stored, events, m, parses)
    case Refused => true
  }

  ghost predicate NotedSince(stored: Option<string>, events: seq<Event>, n: nat, i: nat, since: nat, parses: string -> bool)
    requires Runs(Initial(stored), events, parses) && n <= |events|
  {
    exists k :: 0 <= k < n && Calls(stored, events, k, i, parses) && since + 1 == Length(stored, events, k, parses)
  }

  ghost predicate AllNoted(stored: Option<string>, events: seq<Event>, n: nat, parses: string -> bool)
    requires Runs(Initial(stored), events, parses) && n <= |events|
  {
    var loads := Before(stored, events, n, parses).loads;
    forall i :: 0 <= i < |loads| ==> Noted(stored, events, n, i, loads[i], parses)
  }

  lemma NotedLater(stored: Option<string>, events: seq<Event>, n: nat, i: nat, load: Load, parses: string -> bool)
    requires Runs(Initial(stored), events, parses) && n < |events| && Noted(stored, events, n, i, load, parses)
    ensures Noted(stored, events, n + 1, i, load, parses)
  {
    hide Calls, Ends, Length, Runs;
  }

  /** How one step changes the list of loads. */
  lemma LoadsNext(w: World, e: Event, parses: string -> bool, i: nat)
    requires Enabled(w, e) && i < |Step(w, e, parses).loads|
    ensures var next := Step(w, e, parses).loads; var now := |w.values| - 1;
            if i >= |w.loads| then
              && e == LoadCall && i == |w.loads|
              && (next[i].Waiting? || next[i].Answered?) && next[i].since == now && (next[i].Answered? ==> next[i].until == now)
            else
              || next[i] == w.loads[i] || next[i].Refused?
              || (w.loads[i].Waiting? && next[i].Read? && next[i].since == w.loads[i].since)
              || (e == LoadReturns(i) && w.loads[i].Read? && next[i].Answered? && next[i].since == w.loads[i].since && next[i].until == now)
  {
  }

  lemma NotedNext(stored: Option<string>, events: seq<Event>, n: nat, i: nat, parses: string -> bool)
    requires Runs(Initial(stored), events, parses) && n < |events| && AllNoted(stored, events, n, parses)
    requires i < |Before(stored, events, n + 1, parses).loads|
    ensures Noted(stored, events, n + 1, i, Before(stored, events, n + 1, parses).loads[i], parses)
  {
    var w, next := Before(stored, events, n, parses), Before(stored, events, n + 1, parses);
    NextIs(stored, events, n, parses);
    LoadsNext(w, events[n], parses, i);
    assert events[n] == LoadCall && |w.loads| == i ==> Calls(stored, events, n, i, parses) && Ends(stored, events, n, i, parses);
    assert events[n] == LoadReturns(i) ==> Ends(stored, events, n, i, parses);
    assert Length(stored, events, n, parses) == |w.values|;
    if i < |w.loads| {
      assert Noted(stored, events, n, i, w.loads[i], parses);
      NotedLater(stored, events, n, i, w.loads[i], parses);
    }
    hide Before, Calls, Ends, Length, Runs, Step, Enabled;
  }

  lemma {:induction false} LoadsAreNoted(stored: Option<string>, events: seq<Event>, n: nat, parses: string -> bool)
    requires Runs(Initial(stored), events, parses) && n <= |events|
    ensures AllNoted(stored, events, n, parses)
    decreases n
  {
    if n == 0 {
      FirstIs(stored, events, parses);
    } else {
      LoadsAreNoted(stored, events, n - 1, parses);
      hide Before, Runs, Noted;
      forall i | 0 <= i < |Before(stored, events, n, parses).loads|
        ensures Noted(stored, events, n, i, Before(stored, events, n, parses).loads[i], parses)
      {
        NotedNext(stored, events, n - 1, i, parses);
      }
    }
  }

  /** The record grows by one entry at a time, so every entry in a span was the value
      at some point of it. */
  lemma {:induction false} EntryWasValue(stored: Option<string>, events: seq<Event>, k: nat, m: nat, j: nat, parses: string -> bool)
    returns (at: nat)
    requires Runs(Initial(stored), events, parses) && k <= m <= |events|
    requires Length(stored, events, k, parses) <= j + 1 <= Length(stored, events, m, parses)
    ensures k <= at <= m && Before(stored, events, m, parses).values[j] == Value(stored, events, at, parses)
    decreases m
  {
    RecordIsValue(stored, events, m, parses);
    var w := Before(stored, events, m, parses);
    if j + 1 == |w.values| {
      at := m;
    } else {
      assert k < m;
      NextIs(stored, events, m - 1, parses);
      GrowsByOne(Before(stored, events, m - 1, parses), events[m - 1], parses);
      at := EntryWasValue(stored, events, k, m - 1, j, parses);
    }
  }

  lemma GrowsByOne(w: World, e: Event, parses: string -> bool)
    requires Enabled(w, e)
    ensures var next := Step(w, e, parses); w.values <= next.values && |next.values| <= |w.values| + 1
  {
  }

  lemma {:induction false} RecordStays(stored: Option<string>, events: seq<Event>, m: nat, n: nat, parses: string -> bool)
    requires Runs(Initial(stored), events, parses) && m <= n <= |events|
    ensures Before(stored, events, m, parses).values <= Before(stored, events, n, parses).values
    decreases n
  {
    if m < n {
      RecordStays(stored, events, m, n - 1, parses);
      NextIs(stored, events, n - 1, parses);
      GrowsByOne(Before(stored, events, n - 1, parses), events[n - 1], parses);
      hide Before, Runs;
    }
  }

  /** Without failures every load answers the scope's value at some point between its
      call and its answer. */
  lemma LoadsAnswerTheValue(stored: Option<string>, events: seq<Event>, i: nat, parses: string -> bool)
    returns (k: nat, at: nat, m: nat)
    requires Runs(Initial(stored), events, parses) && NoFailures(events)
    requires var w := After(Initial(stored), events, parses); i < |w.loads| && w.loads[i].Answered?
    ensures k <= at <= m < |events| && Calls(stored, events, k, i, parses) && Ends(stored, events, m, i, parses)
    ensures After(Initial(stored), events, parses).loads[i].value == Value(stored, events, at, parses)
  {
    var n := |events|;
    var w := After(Initial(stored), events, parses);
    FirstIs(stored, events, parses);
    PersistIsARegister(stored, events, parses);
    LoadsAreNoted(stored, events, n, parses);
    var load := w.loads[i];
    assert LoadIsTrue(load, w.values, w.marks) && Noted(stored, events, n, i, load, parses);
    hide Before, Runs, After, Calls, Ends;
    k, m :| 0 <= k <= m < n && Calls(stored, events, k, i, parses) && load.since + 1 == Length(stored, events, k, parses)
            && Ends(stored, events, m, i, parses) && load.until + 1 == Length(stored, events, m, parses);
    var j :| load.since <= j <= load.until && w.values[j] == load.value;
    RecordStays(stored, events, m, n, parses);
    at := EntryWasValue(stored, events, k, m, j, parses);
  }

  // --------------------------------------------------------- the write block

  ghost predicate BlockedBy(stored: Option<string>, events: seq<Event>, n: nat, k: nat, parses: string -> bool)
    requires Runs(Initial(stored), events, parses) && n <= |events| && k < n
  {
    FrontRuns(Initial(stored), events, k, parses);
    Blocks(Before(stored, events, k, parses), events[k], parses) && NotLifted(stored, events, k + 1, n, parses)
  }

  /** Nothing from event `k` up to `n` lifts the block. */
  ghost predicate NotLifted(stored: Option<string>, events: seq<Event>, k: nat, n: nat, parses: string -> bool)
    requires Runs(Initial(stored), events, parses) && k <= n <= |events|
  {
    forall l :: k <= l < n ==> !LiftsAt(stored, events, l, parses)
  }

  ghost predicate LiftsAt(stored: Option<string>, events: seq<Event>, l: nat, parses: string -> bool)
    requires Runs(Initial(stored), events, parses) && l < |events|
  {
    FrontRuns(Initial(stored), events, l, parses);
    Lifts(Before(stored, events, l, parses), events[l], parses)
  }

  /** Saves are refused exactly when some event has blocked the scope and none since
      has lifted the block. */
  lemma {:induction false} BlockedIff(stored: Option<string>, events: seq<Event>, n: nat, parses: string -> bool)
    requires Runs(Initial(stored), events, parses) && n <= |events|
    ensures Before(stored, events, n, parses).slot.blocked <==> exists k :: 0 <= k < n && BlockedBy(stored, events, n, k, parses)
    decreases n
  {
    if n == 0 {
      FirstIs(stored, events, parses);
    } else {
      var m := n - 1;
      BlockedIff(stored, events, m, parses);
      NextIs(stored, events, m, parses);
      BlockedAfterIff(Before(stored, events, m, parses), events[m], parses);
      forall k | 0 <= k < m
        ensures BlockedBy(stored, events, n, k, parses) <==> BlockedBy(stored, events, m, k, parses) && !LiftsAt(stored, events, m, parses)
      {
        hide Before, Runs, Blocks, LiftsAt;
      }
      assert BlockedBy(stored, events, n, m, parses) <==> Blocks(Before(stored, events, m, parses), events[m], parses);
      hide Before, Runs, Blocks, BlockedBy, Step;
    }
  }

  /** A stored value that does not parse is safe from the first load on: the scope is
      blocked when it comes back, and no run from there that does not delete it replaces
      the value. */
  lemma DamagedFromTheStart(text: string, events: seq<Event>, parses: string -> bool)
    requires !parses(text) && DeleteCall !in events
    ensures Runs(Initial(Some(text)), [LoadCall, LoadReads(0), LoadReturns(0)], parses)
    ensures var w := After(Initial(Some(text)), [LoadCall, LoadReads(0), LoadReturns(0)], parses);
            && Protected(w, text, parses)
            && (Runs(w, events, parses) ==> BlockedThroughout(w, events, parses) && After(w, events, parses).slot.stored == Some(text))
  {
    var w0 := Initial(Some(text));
    var w1 := Step(w0, LoadCall, parses);
    var w2 := Step(w1, LoadReads(0), parses);
    var w3 := Step(w2, LoadReturns(0), parses);
    assert w1.loads == [Waiting(0, 0)] && w2.loads == [Read(Some(text), 0, 0)] && w3.loads == [Answered(Some(text), 0, 0)];
    assert Runs(w3, [], parses) && After(w3, [], parses) == w3;
    assert Protected(w3, text, parses);
    hide Step, Runs, After;
    FirstEvent(w2, LoadReturns(0), [], parses);
    FirstEvent(w1, LoadReads(0), [LoadReturns(0)] + [], parses);
    FirstEvent(w0, LoadCall, [LoadReads(0)] + ([LoadReturns(0)] + []), parses);
    assert [LoadCall] + ([LoadReads(0)] + ([LoadReturns(0)] + [])) == [LoadCall, LoadReads(0), LoadReturns(0)];
    if Runs(w3, events, parses) {
      ProtectedIsBlockedThroughout(w3, events, text, parses);
      DamagedValueSurvives(w3, events, text, parses);
    }
  }

  // ---------------------------------------------------------------- the timer

  /** Without failures a buffered text is never left without its timer. */
  lemma {:induction false} BufferedIsTimed(stored: Option<string>, events: seq<Event>, n: nat, parses: string -> bool)
    requires Runs(Initial(stored), events, parses) && n <= |events| && NoFailures(events)
    ensures var s := Before(stored, events, n, parses).slot; s.timer <==> s.pending.Some?
    decreases n
  {
    if n == 0 {
      FirstIs(stored, events, parses);
    } else {
      BufferedIsTimed(stored, events, n - 1, parses);
      NextIs(stored, events, n - 1, parses);
      hide Before, Runs;
    }
  }
}
