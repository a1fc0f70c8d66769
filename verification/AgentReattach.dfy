/** Events of a session, its log, and the consumer they go to: `TeeSink::emit`,
    the forward closure and `AgentRegistry::attach` of
    `src-tauri/src/agent_bridge.rs`.

    The session thread writes an event to the log, then reads the current
    target, then delivers. An attaching thread swaps the target, then reads the
    log, then delivers what it read, one event at a time. All of these
    interleave. */
module AgentReattach {

  type Consumer = nat

  /** A logged event is named by its place in the log. */
  datatype Item = Logged(at: nat) | Unlogged

  /** Where the session thread stands with the event in its hands. */
  datatype Emitter = Idle | Forwarding(item: Item) | Aimed(item: Item, to: Consumer)

  datatype Attachment =
    | Swapped                     // the target is theirs, the log not yet read
    | Replaying(rest: seq<Item>)  // still to be handed over
    | Broken                      // the log could not be read

  datatype Session = Session(
    length: nat, target: Consumer, emitter: Emitter, failed: bool,
    attached: map<Consumer, Attachment>, delivered: map<Consumer, seq<Item>>,
    replayed: map<Consumer, nat>, aimedAt: map<nat, Consumer>)

  datatype Event =
    | Append | AppendFails | NoLog
    | Aim | Deliver
    | Swap(joining: Consumer) | ReadLog(reading: Consumer) | ReadFails(broken: Consumer)
    | Replay(replaying: Consumer)

  function Places(n: nat): seq<Item> { seq(n, (i: nat) => Logged(i)) }

  /** A session started over a log of `n` events, already replayed to `first`. */
  function Started(n: nat, first: Consumer): Session {
    Session(n, first, Idle, false, map[first := Replaying([])], map[first := Places(n)], map[first := n], map[])
  }

  predicate Enabled(s: Session, e: Event) {
    match e
    case Append => s.emitter == Idle
    case AppendFails => s.emitter == Idle
    case NoLog => s.emitter == Idle && s.length == 0
    case Aim => s.emitter.Forwarding?
    case Deliver => s.emitter.Aimed? && s.emitter.to in s.delivered
    // attaching is serialized from the swap to the read of the log
    case Swap(c) => c !in s.delivered && c !in s.attached && c !in s.replayed && Swapped !in s.attached.Values
    case ReadLog(c) => c in s.attached && s.attached[c] == Swapped
    case ReadFails(c) => c in s.attached && s.attached[c] == Swapped
    case Replay(c) => c in s.attached && s.attached[c].Replaying? && s.attached[c].rest != [] && c in s.delivered
  }

  function Step(s: Session, e: Event): Session
    requires Enabled(s, e)
  {
    match e
    case Append => s.(length := s.length + 1, emitter := Forwarding(Logged(s.length)))
    // the first failure is announced to the consumer, later ones are silent
    case AppendFails => if s.failed then s else s.(failed := true, emitter := Forwarding(Unlogged))
    case NoLog => s.(emitter := Forwarding(Unlogged))
    case Aim =>
      s.(emitter := Aimed(s.emitter.item, s.target),
         aimedAt := if s.emitter.item.Logged? then s.aimedAt[s.emitter.item.at := s.target] else s.aimedAt)
    case Deliver =>
      s.(emitter := Idle, delivered := s.delivered[s.emitter.to := s.delivered[s.emitter.to] + [s.emitter.item]])
    case Swap(c) => s.(target := c, attached := s.attached[c := Swapped], delivered := s.delivered[c := []])
    case ReadLog(c) => s.(attached := s.attached[c := Replaying(Places(s.length))], replayed := s.replayed[c := s.length])
    case ReadFails(c) => s.(attached := s.attached[c := Broken])
    case Replay(c) =>
      var rest := s.attached[c].rest;
      s.(delivered := s.delivered[c := s.delivered[c] + [rest[0]]], attached := s.attached[c := Replaying(rest[1..])])
  }

  ghost predicate Runs(s: Session, events: seq<Event>)
    decreases |events|
  {
    events != [] ==> Enabled(s, events[0]) && Runs(Step(s, events[0]), events[1..])
  }

  ghost function After(s: Session, events: seq<Event>): Session
    requires Runs(s, events)
    decreases |events|
  {
    if events == [] then s else After(Step(s, events[0]), events[1..])
  }

  // --------------------------------------------------------------- counting

  function Count(items: seq<Item>, i: nat): nat {
    if items == [] then 0 else (if items[0] == Logged(i) then 1 else 0) + Count(items[1..], i)
  }

  lemma {:induction false} CountPush(items: seq<Item>, x: Item, i: nat)
    ensures Count(items + [x], i) == Count(items, i) + if x == Logged(i) then 1 else 0
  {
    if items == [] {
      assert [x][1..] == [] && items + [x] == [x];
    } else {
      CountPush(items[1..], x, i);
      assert (items + [x])[1..] == items[1..] + [x];
    }
  }

  lemma {:induction false} CountPlaces(n: nat, i: nat)
    ensures Count(Places(n), i) == if i < n then 1 else 0
  {
    if n == 0 {
      assert Places(0) == [];
    } else {
      CountPlaces(n - 1, i);
      assert Places(n) == Places(n - 1) + [Logged(n - 1)];
      CountPush(Places(n - 1), Logged(n - 1), i);
    }
  }

  /** What is on its way to `c`: still to be replayed, or aimed at it. */
  function Owed(s: Session, c: Consumer, i: nat): nat {
    (if c in s.attached && s.attached[c].Replaying? then Count(s.attached[c].rest, i) else 0)
    + (if s.emitter == Aimed(Logged(i), c) then 1 else 0)
  }

  /** Whether event `i` was in the log `c` was replayed, and whether it was
      sent to `c` live. */
  predicate WasReplayed(s: Session, c: Consumer, i: nat) { c in s.replayed && i < s.replayed[c] }
  predicate WasLive(s: Session, c: Consumer, i: nat) { i in s.aimedAt && s.aimedAt[i] == c }

  /** Deliveries, made or owed, match exactly: one for the replay that held the
      event, one for the live sending. */
  predicate BalancedAt(s: Session, c: Consumer, i: nat)
    requires c in s.delivered
  {
    Count(s.delivered[c], i) + Owed(s, c, i)
    == (if WasReplayed(s, c, i) then 1 else 0) + (if WasLive(s, c, i) then 1 else 0)
  }

  ghost predicate Balanced(s: Session) {
    forall c, i :: c in s.delivered ==> BalancedAt(s, c, i)
  }

  ghost predicate Shape(s: Session) {
    && s.target in s.attached
    && (forall c :: c in s.attached <==> c in s.delivered)
    && (forall c :: c in s.replayed ==> c in s.attached && s.attached[c].Replaying? && s.replayed[c] <= s.length)
    && (forall c :: c in s.attached && s.attached[c].Replaying? ==> c in s.replayed)
    && (forall i :: i in s.aimedAt ==> i < s.length && s.aimedAt[i] in s.delivered)
    && (s.emitter.Aimed? ==> s.emitter.to in s.delivered)
    && (s.emitter.Forwarding? && s.emitter.item.Logged? ==>
          s.emitter.item.at + 1 == s.length && s.emitter.item.at !in s.aimedAt)
  }

  /** Whatever the current target's replay did not hold was sent to it live, or
      is about to be. */
  ghost predicate NothingMissed(s: Session) {
    s.target in s.replayed ==>
      forall i :: s.replayed[s.target] <= i < s.length ==> WasLive(s, s.target, i) || s.emitter == Forwarding(Logged(i))
  }

  ghost predicate Accounted(s: Session) { Shape(s) && Balanced(s) && NothingMissed(s) }

  lemma StartedIsAccounted(n: nat, first: Consumer)
    ensures Accounted(Started(n, first))
  {
    var s := Started(n, first);
    forall c, i | c in s.delivered
      ensures BalancedAt(s, c, i)
    {
      CountPlaces(n, i);
    }
  }

  lemma StepKeepsMissing(s: Session, e: Event)
    requires Shape(s) && NothingMissed(s) && Enabled(s, e)
    ensures NothingMissed(Step(s, e))
  {
    hide Places, Count;
  }

  lemma StepKeepsShape(s: Session, e: Event)
    requires Shape(s) && NothingMissed(s) && Enabled(s, e)
    ensures Shape(Step(s, e))
  {
    hide NothingMissed, Places, Count;
  }

  lemma DeliverKeepsBalance(s: Session, c: Consumer, i: nat)
    requires Shape(s) && Enabled(s, Deliver) && c in s.delivered && BalancedAt(s, c, i)
    ensures BalancedAt(Step(s, Deliver), c, i)
  {
    CountPush(s.delivered[s.emitter.to], s.emitter.item, i);
  }

  lemma ReplayKeepsBalance(s: Session, r: Consumer, c: Consumer, i: nat)
    requires Shape(s) && Enabled(s, Replay(r)) && c in s.delivered && BalancedAt(s, c, i)
    ensures BalancedAt(Step(s, Replay(r)), c, i)
  {
    CountPush(s.delivered[r], s.attached[r].rest[0], i);
  }

  lemma ReadKeepsBalance(s: Session, r: Consumer, c: Consumer, i: nat)
    requires Shape(s) && Enabled(s, ReadLog(r)) && c in s.delivered && BalancedAt(s, c, i)
    ensures BalancedAt(Step(s, ReadLog(r)), c, i)
  {
    CountPlaces(s.length, i);
  }

  lemma StepKeepsBalance(s: Session, e: Event, c: Consumer, i: nat)
    requires Shape(s) && Balanced(s) && Enabled(s, e) && c in Step(s, e).delivered
    ensures BalancedAt(Step(s, e), c, i)
  {
    hide Places, Count;
    assert c in s.delivered ==> BalancedAt(s, c, i);
    match e
    case Deliver => DeliverKeepsBalance(s, c, i);
    case Replay(r) => ReplayKeepsBalance(s, r, c, i);
    case ReadLog(r) => ReadKeepsBalance(s, r, c, i);
    case Swap(r) => assert c == r ==> Count(Step(s, e).delivered[c], i) == 0 by { NothingYet(i); }
    case Append =>
    case AppendFails =>
    case NoLog =>
    case Aim =>
    case ReadFails(r) =>
  }

  lemma NothingYet(i: nat)
    ensures Count([], i) == 0
  {
  }

  lemma StepKeepsAccount(s: Session, e: Event)
    requires Accounted(s) && Enabled(s, e)
    ensures Accounted(Step(s, e))
  {
    StepKeepsShape(s, e);
    StepKeepsMissing(s, e);
    hide Shape, NothingMissed, Enabled;
    forall c, i | c in Step(s, e).delivered
      ensures BalancedAt(Step(s, e), c, i)
    {
      StepKeepsBalance(s, e, c, i);
    }
  }

  lemma {:induction false} RunKeepsAccount(s: Session, events: seq<Event>)
    requires Accounted(s) && Runs(s, events)
    ensures Accounted(After(s, events))
    decreases |events|
  {
    if events != [] {
      StepKeepsAccount(s, events[0]);
      RunKeepsAccount(Step(s, events[0]), events[1..]);
    }
  }

  /** Nothing is on its way to `c` any more. */
  predicate Settled(s: Session, c: Consumer) {
    s.emitter == Idle && c in s.attached && s.attached[c] == Replaying([])
  }

  /** Reattaching loses nothing, in any interleaving of any number of attaches:
      a consumer whose replay is done has every event that was logged when it
      read the log; the one still current has every logged event; and it has an
      event twice exactly when that one was both replayed and sent live. */
  lemma ReattachLosesNothing(n: nat, first: Consumer, events: seq<Event>, c: Consumer, i: nat)
    requires Runs(Started(n, first), events) && Settled(After(Started(n, first), events), c)
    ensures var s := After(Started(n, first), events);
            && c in s.delivered && c in s.replayed
            && (i < s.replayed[c] ==> Count(s.delivered[c], i) >= 1)
            && (c == s.target && i < s.length ==> Count(s.delivered[c], i) >= 1)
            && Count(s.delivered[c], i) <= 2
            && (Count(s.delivered[c], i) == 2 <==> WasReplayed(s, c, i) && WasLive(s, c, i))
  {
    StartedIsAccounted(n, first);
    RunKeepsAccount(Started(n, first), events);
    var s := After(Started(n, first), events);
    assert BalancedAt(s, c, i);
  }

  lemma FirstEvent(s: Session, e: Event, events: seq<Event>)
    requires Enabled(s, e) && Runs(Step(s, e), events)
    ensures Runs(s, [e] + events) && After(s, [e] + events) == After(Step(s, e), events)
  {
    assert ([e] + events)[1..] == events;
  }

  // --------------------------------------- when an attach brings one twice

  /** A logged event has been aimed at `c`, or waits to be aimed. */
  predicate Touched(s: Session, c: Consumer) {
    (s.emitter.Forwarding? && s.emitter.item.Logged?) || c in s.aimedAt.Values
  }

  lemma SwapTouchesIff(s: Session, c: Consumer)
    requires Shape(s) && Enabled(s, Swap(c))
    ensures Touched(Step(s, Swap(c)), c) <==> s.emitter.Forwarding? && s.emitter.item.Logged?
  {
    assert c !in s.aimedAt.Values;
  }

  /** While `c` has the target, and its log is not read, no other takes it. */
  lemma StepTouchesIff(s: Session, e: Event, c: Consumer)
    requires Shape(s) && Enabled(s, e) && s.target == c && c in s.attached && s.attached[c] == Swapped
    ensures var next := Step(s, e);
            next.target == c && c in next.attached && (Touched(next, c) <==> Touched(s, c) || e == Append)
  {
    assert Swapped in s.attached.Values;
    if e == Aim && s.emitter.item.Logged? {
      assert Step(s, e).aimedAt[s.emitter.item.at] == c;
      assert c in Step(s, e).aimedAt.Values;
    }
  }

  lemma {:induction false} LeftForGood(s: Session, events: seq<Event>, c: Consumer)
    requires Runs(s, events) && c in s.attached && s.attached[c] != Swapped
    ensures var v := After(s, events); c in v.attached && v.attached[c] != Swapped
    decreases |events|
  {
    if events != [] {
      LeftForGood(Step(s, events[0]), events[1..], c);
    }
  }

  lemma {:induction false} RunTouchesIff(s: Session, events: seq<Event>, c: Consumer)
    requires Accounted(s) && Runs(s, events) && s.target == c && c in s.attached && s.attached[c] == Swapped
    requires var v := After(s, events); c in v.attached && v.attached[c] == Swapped
    ensures var v := After(s, events); v.target == c && (Touched(v, c) <==> Touched(s, c) || Append in events)
    decreases |events|
  {
    if events != [] {
      var next := Step(s, events[0]);
      StepTouchesIff(s, events[0], c);
      StepKeepsAccount(s, events[0]);
      hide Step, Enabled, Accounted, Touched;
      if next.attached[c] != Swapped {
        LeftForGood(next, events[1..], c);
      }
      RunTouchesIff(next, events[1..], c);
    }
  }

  /** No event of the replay was sent to `c` live, nor will be. */
  ghost predicate Untouched(s: Session, c: Consumer) {
    && c in s.replayed && c in s.attached && s.attached[c].Replaying?
    && forall i :: 0 <= i < s.replayed[c] ==> !WasLive(s, c, i) && s.emitter != Forwarding(Logged(i))
  }

  lemma StepStaysUntouched(s: Session, e: Event, c: Consumer)
    requires Shape(s) && Untouched(s, c) && Enabled(s, e)
    ensures Untouched(Step(s, e), c)
  {
    hide Places;
    var next := Step(s, e);
    assert next.replayed[c] == s.replayed[c] && next.attached[c].Replaying?;
    forall i | 0 <= i < s.replayed[c]
      ensures !WasLive(next, c, i) && next.emitter != Forwarding(Logged(i))
    {
      assert !WasLive(s, c, i) && s.emitter != Forwarding(Logged(i));
    }
  }

  lemma {:induction false} StaysUntouched(s: Session, events: seq<Event>, c: Consumer)
    requires Accounted(s) && Untouched(s, c) && Runs(s, events)
    ensures Untouched(After(s, events), c)
    decreases |events|
  {
    if events != [] {
      StepKeepsAccount(s, events[0]);
      StepStaysUntouched(s, events[0], c);
      hide Accounted, Untouched, Step, Enabled;
      StaysUntouched(Step(s, events[0]), events[1..], c);
    }
  }

  /** Left alone, an idle session hands over the rest of a replay. */
  lemma {:induction false} ReplayOut(s: Session, c: Consumer) returns (events: seq<Event>)
    requires Accounted(s) && s.emitter == Idle && c in s.attached && s.attached[c].Replaying?
    ensures Runs(s, events) && Settled(After(s, events), c)
    ensures var v := After(s, events); Accounted(v) && v.replayed == s.replayed && v.aimedAt == s.aimedAt
    decreases |s.attached[c].rest|
  {
    events := [];
    if s.attached[c].rest != [] {
      StepKeepsAccount(s, Replay(c));
      var tail := ReplayOut(Step(s, Replay(c)), c);
      hide Accounted, Settled;
      FirstEvent(s, Replay(c), tail);
      events := [Replay(c)] + tail;
    }
  }

  /** The event in hand goes out first. */
  lemma SendThenReplay(s: Session, c: Consumer) returns (events: seq<Event>)
    requires Accounted(s) && !s.emitter.Forwarding? && c in s.attached && s.attached[c].Replaying?
    ensures Runs(s, events) && Settled(After(s, events), c)
    ensures var v := After(s, events); Accounted(v) && v.replayed == s.replayed && v.aimedAt == s.aimedAt
  {
    if s.emitter == Idle {
      events := ReplayOut(s, c);
    } else {
      StepKeepsAccount(s, Deliver);
      var tail := ReplayOut(Step(s, Deliver), c);
      hide Accounted, Settled;
      FirstEvent(s, Deliver, tail);
      events := [Deliver] + tail;
    }
  }

  lemma AimThenReplay(s: Session, c: Consumer) returns (events: seq<Event>, i: nat)
    requires Accounted(s) && Touched(s, c) && s.target == c && c in s.replayed && s.replayed[c] == s.length
    ensures Runs(s, events) && Settled(After(s, events), c) && Accounted(After(s, events))
    ensures var v := After(s, events); WasReplayed(v, c, i) && WasLive(v, c, i)
  {
    if s.emitter.Forwarding? {
      StepKeepsAccount(s, Aim);
      var next := Step(s, Aim);
      var tail := SendThenReplay(next, c);
      if s.emitter.item.Logged? {
        i := s.emitter.item.at;
      } else {
        i := WasAimed(s, c);
      }
      assert WasReplayed(next, c, i) && WasLive(next, c, i);
      hide Accounted, Settled;
      FirstEvent(s, Aim, tail);
      events := [Aim] + tail;
    } else {
      events := SendThenReplay(s, c);
      i := WasAimed(s, c);
    }
  }

  lemma WasAimed(s: Session, c: Consumer) returns (i: nat)
    requires Shape(s) && c in s.aimedAt.Values
    ensures i < s.length && WasLive(s, c, i)
  {
    i :| i in s.aimedAt && s.aimedAt[i] == c;
  }

  /** Some way of going on leaves `c`, its replay done, with an event it has twice. */
  ghost predicate CanComeTwice(s: Session, c: Consumer) {
    exists events, i: nat :: Runs(s, events) && Settled(After(s, events), c) && TwiceAt(After(s, events), c, i)
  }

  predicate TwiceAt(s: Session, c: Consumer, i: nat) { c in s.delivered && Count(s.delivered[c], i) == 2 }

  lemma TwiceIff(s: Session, c: Consumer, i: nat)
    requires Accounted(s) && Settled(s, c)
    ensures TwiceAt(s, c, i) <==> WasReplayed(s, c, i) && WasLive(s, c, i)
  {
    assert c in s.delivered && BalancedAt(s, c, i);
  }

  lemma ReadCanComeTwiceIff(s: Session, c: Consumer)
    requires Accounted(s) && Enabled(s, ReadLog(c)) && s.target == c
    ensures CanComeTwice(Step(s, ReadLog(c)), c) <==> Touched(s, c)
  {
    var next := Step(s, ReadLog(c));
    StepKeepsAccount(s, ReadLog(c));
    if Touched(s, c) {
      var events, i := AimThenReplay(next, c);
      TwiceIff(After(next, events), c, i);
    } else {
      assert Untouched(next, c);
      hide Step, Enabled, Settled, TwiceAt, Untouched, Accounted;
      forall events, i: nat | Runs(next, events) && Settled(After(next, events), c)
        ensures !TwiceAt(After(next, events), c, i)
      {
        StaysUntouched(next, events, c);
        RunKeepsAccount(next, events);
        TwiceIff(After(next, events), c, i);
        NeverBoth(After(next, events), c, i);
      }
    }
  }

  lemma NeverBoth(s: Session, c: Consumer, i: nat)
    requires Untouched(s, c)
    ensures !(WasReplayed(s, c, i) && WasLive(s, c, i))
  {
  }

  /** After any run, an attach that swaps the target, lets `between` happen and then
      reads the log can still end with an event twice exactly when one was logged but
      not yet aimed at the swap, or one was logged between the swap and the read. */
  lemma AttachCanComeTwiceIff(n: nat, first: Consumer, before: seq<Event>, c: Consumer, between: seq<Event>)
    requires Runs(Started(n, first), before) && Enabled(After(Started(n, first), before), Swap(c))
    requires var swapped := Step(After(Started(n, first), before), Swap(c));
             Runs(swapped, between) && Enabled(After(swapped, between), ReadLog(c))
    ensures var s := After(Started(n, first), before);
            CanComeTwice(Step(After(Step(s, Swap(c)), between), ReadLog(c)), c)
            <==> (s.emitter.Forwarding? && s.emitter.item.Logged?) || Append in between
  {
    StartedIsAccounted(n, first);
    RunKeepsAccount(Started(n, first), before);
    var s := After(Started(n, first), before);
    var swapped := Step(s, Swap(c));
    StepKeepsAccount(s, Swap(c));
    SwapTouchesIff(s, c);
    RunTouchesIff(swapped, between, c);
    RunKeepsAccount(swapped, between);
    hide *;
    ReadCanComeTwiceIff(After(swapped, between), c);
  }

  // ------------------------------------------------------------ not once only

  /** An event logged before the swap but aimed after it reaches the new
      consumer twice, and live before it is replayed. */
  lemma CanDeliverTwice()
    ensures var events := [Append, Swap(1), ReadLog(1), Aim, Deliver, Replay(1)];
            && Runs(Started(0, 0), events)
            && var s := After(Started(0, 0), events); Settled(s, 1) && 1 in s.delivered && s.delivered[1] == [Logged(0), Logged(0)]
  {
    var tail := [Aim, Deliver, Replay(1)];
    var s0 := Started(0, 0);
    var s1 := Step(s0, Append);
    var s2 := Step(s1, Swap(1));
    var s3 := Step(s2, ReadLog(1));
    LiveThenReplayed(s3);
    hide Step, Runs, After;
    FirstEvent(s2, ReadLog(1), tail);
    FirstEvent(s1, Swap(1), [ReadLog(1)] + tail);
    FirstEvent(s0, Append, [Swap(1)] + ([ReadLog(1)] + tail));
    assert [Append] + ([Swap(1)] + ([ReadLog(1)] + tail)) == [Append, Swap(1), ReadLog(1), Aim, Deliver, Replay(1)];
  }

  lemma LiveThenReplayed(s3: Session)
    requires s3.emitter == Forwarding(Logged(0)) && s3.target == 1
    requires s3.attached == map[0 := Replaying([]), 1 := Replaying(Places(1))] && 1 in s3.delivered && s3.delivered[1] == []
    ensures var events := [Aim, Deliver, Replay(1)];
            && Runs(s3, events)
            && var s := After(s3, events); Settled(s, 1) && 1 in s.delivered && s.delivered[1] == [Logged(0), Logged(0)]
  {
    assert Places(1) == [Logged(0)];
    var s4 := Step(s3, Aim);
    var s5 := Step(s4, Deliver);
    var s6 := Step(s5, Replay(1));
    assert s4.emitter == Aimed(Logged(0), 1) && s5.delivered[1] == [Logged(0)] && s6.delivered[1] == [Logged(0), Logged(0)];
    assert s6.attached[1] == Replaying([]);
    assert Runs(s6, []) && After(s6, []) == s6;
    hide Step, Runs, After;
    FirstEvent(s5, Replay(1), []);
    FirstEvent(s4, Deliver, [Replay(1)] + []);
    FirstEvent(s3, Aim, [Deliver] + ([Replay(1)] + []));
    assert [Aim] + ([Deliver] + ([Replay(1)] + [])) == [Aim, Deliver, Replay(1)];
  }
}
