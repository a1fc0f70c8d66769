/** The order in which a consumer gets what it gets: the log it is replayed from front
    to back, and what is sent to it live as it is logged, one merged into the other
    (`src-tauri/src/agent_bridge.rs`). */
module ReattachOrder {
  import opened AgentReattach

  /** `items` is `a` and `b` merged, each in its own order. */
  ghost predicate Merges(items: seq<Item>, a: seq<Item>, b: seq<Item>)
    decreases |items|
  {
    if items == [] then a == [] && b == []
    else
      var n, x := |items| - 1, items[|items| - 1];
      || (a != [] && a[|a| - 1] == x && Merges(items[..n], a[..|a| - 1], b))
      || (b != [] && b[|b| - 1] == x && Merges(items[..n], a, b[..|b| - 1]))
  }

  lemma MergeLeft(items: seq<Item>, a: seq<Item>, b: seq<Item>, x: Item)
    requires Merges(items, a, b)
    ensures Merges(items + [x], a + [x], b)
  {
    assert (items + [x])[..|items|] == items && (a + [x])[..|a|] == a;
  }

  lemma MergeRight(items: seq<Item>, a: seq<Item>, b: seq<Item>, x: Item)
    requires Merges(items, a, b)
    ensures Merges(items + [x], a, b + [x])
  {
    assert (items + [x])[..|items|] == items && (b + [x])[..|b|] == b;
  }

  /** The log events among them come in the order they were logged, all before `bound`. */
  ghost predicate Ascending(live: seq<Item>, bound: nat) {
    && (forall p, q :: 0 <= p < q < |live| && live[p].Logged? && live[q].Logged? ==> live[p].at < live[q].at)
    && (forall p :: 0 <= p < |live| && live[p].Logged? ==> live[p].at < bound)
  }

  /** The first `n` events of the log, front to back. */
  predicate LogOf(items: seq<Item>, n: nat) { |items| == n && forall k :: 0 <= k < n ==> items[k] == Logged(k) }

  /** What a replay of `n` events has handed over, given what is left of it. */
  predicate HandedOver(done: seq<Item>, rest: seq<Item>, n: nat) { LogOf(done + rest, n) }

  /** The next log event that can be sent live. */
  function NextLive(s: Session): nat {
    match s.emitter
    case Idle => s.length
    case Forwarding(item) => if item.Logged? then item.at else s.length
    case Aimed(item, _) => if item.Logged? then item.at else s.length
  }

  ghost predicate InOrderFor(s: Session, c: Consumer, done: seq<Item>, live: seq<Item>)
    requires c in s.delivered
  {
    && Merges(s.delivered[c], done, live) && Ascending(live, NextLive(s))
    && (if c in s.attached && s.attached[c].Replaying? then c in s.replayed && HandedOver(done, s.attached[c].rest, s.replayed[c])
        else done == [])
  }

  ghost predicate Ordered(s: Session, c: Consumer) { c in s.delivered ==> exists done, live :: InOrderFor(s, c, done, live) }

  /** An event in hand is the last one logged. */
  ghost predicate InHand(s: Session) {
    (s.emitter.Forwarding? || s.emitter.Aimed?) && s.emitter.item.Logged? ==> s.emitter.item.at + 1 == s.length
  }

  lemma LogIsPlaces(n: nat)
    ensures LogOf(Places(n), n)
  {
  }

  lemma StartedInOrder(n: nat, first: Consumer, c: Consumer)
    ensures Ordered(Started(n, first), c) && InHand(Started(n, first))
  {
    if c == first {
      LogIsPlaces(n);
      AllLeft(Places(n));
      assert Places(n) + [] == Places(n);
      assert InOrderFor(Started(n, first), c, Places(n), []);
    }
  }

  lemma {:induction false} AllLeft(items: seq<Item>)
    ensures Merges(items, items, [])
  {
    if items != [] {
      AllLeft(items[..|items| - 1]);
    }
  }

  lemma StepKeepsInHand(s: Session, e: Event)
    requires Shape(s) && InHand(s) && Enabled(s, e)
    ensures InHand(Step(s, e)) && (NextLive(Step(s, e)) >= NextLive(s))
  {
  }

  lemma DeliverInOrder(s: Session, c: Consumer, done: seq<Item>, live: seq<Item>)
    requires Shape(s) && InHand(s) && Enabled(s, Deliver) && c in s.delivered && InOrderFor(s, c, done, live)
    ensures InOrderFor(Step(s, Deliver), c, done, if s.emitter.to == c then live + [s.emitter.item] else live)
  {
    hide Merges, HandedOver;
    MergeRight(s.delivered[c], done, live, s.emitter.item);
  }

  lemma ReplayInOrder(s: Session, d: Consumer, c: Consumer, done: seq<Item>, live: seq<Item>)
    requires Shape(s) && Enabled(s, Replay(d)) && c in s.delivered && InOrderFor(s, c, done, live)
    ensures InOrderFor(Step(s, Replay(d)), c, if d == c then done + [s.attached[d].rest[0]] else done, live)
  {
    hide Merges, Ascending;
    if d == c {
      var x := s.attached[c].rest[0];
      MergeLeft(s.delivered[c], done, live, x);
      assert done + s.attached[c].rest == (done + [x]) + s.attached[c].rest[1..];
    }
  }

  lemma OthersInOrder(s: Session, e: Event, c: Consumer, done: seq<Item>, live: seq<Item>)
    requires Shape(s) && InHand(s) && Enabled(s, e) && !e.Deliver? && !e.Replay? && c in s.delivered && InOrderFor(s, c, done, live)
    ensures InOrderFor(Step(s, e), c, done, live)
  {
    hide Merges, Places;
    StepKeepsInHand(s, e);
    if e == ReadLog(c) {
      LogIsPlaces(s.length);
      assert [] + Places(s.length) == Places(s.length);
    }
    hide LogOf;
  }

  lemma StepKeepsOrder(s: Session, e: Event, c: Consumer)
    requires Shape(s) && InHand(s) && Enabled(s, e) && Ordered(s, c)
    ensures Ordered(Step(s, e), c)
  {
    if c in s.delivered {
      hide InOrderFor, Shape, InHand;
      var done, live :| InOrderFor(s, c, done, live);
      match e {
        case Deliver => DeliverInOrder(s, c, done, live);
        case Replay(d) => ReplayInOrder(s, d, c, done, live);
        case ReadLog(_) => OthersInOrder(s, e, c, done, live);
        case Swap(_) => OthersInOrder(s, e, c, done, live);
        case ReadFails(_) => OthersInOrder(s, e, c, done, live);
        case Append => OthersInOrder(s, e, c, done, live);
        case AppendFails => OthersInOrder(s, e, c, done, live);
        case NoLog => OthersInOrder(s, e, c, done, live);
        case Aim => OthersInOrder(s, e, c, done, live);
      }
    } else if c in Step(s, e).delivered {
      NothingMerged();
      assert InOrderFor(Step(s, e), c, [], []);
    }
  }

  lemma NothingMerged()
    ensures Merges([], [], [])
  {
  }

  lemma {:induction false} RunKeepsOrder(s: Session, events: seq<Event>, c: Consumer)
    requires Accounted(s) && InHand(s) && Ordered(s, c) && Runs(s, events)
    ensures Ordered(After(s, events), c)
    decreases |events|
  {
    if events != [] {
      StepKeepsAccount(s, events[0]);
      StepKeepsOrder(s, events[0], c);
      StepKeepsInHand(s, events[0]);
      hide Accounted, InHand, Ordered, Step, Enabled;
      RunKeepsOrder(Step(s, events[0]), events[1..], c);
    }
  }

  /** In every interleaving a consumer whose replay is done has had the whole log it
      was replayed, front to back, merged with what was sent to it live, in the order
      it was logged. */
  lemma DeliveriesAreInOrder(n: nat, first: Consumer, events: seq<Event>, c: Consumer)
    returns (replay: seq<Item>, live: seq<Item>)
    requires Runs(Started(n, first), events) && Settled(After(Started(n, first), events), c)
    ensures var s := After(Started(n, first), events);
            && c in s.delivered && c in s.replayed && Merges(s.delivered[c], replay, live)
            && LogOf(replay, s.replayed[c]) && Ascending(live, s.length)
  {
    var s := After(Started(n, first), events);
    StartedIsAccounted(n, first);
    StartedInOrder(n, first, c);
    RunKeepsOrder(Started(n, first), events, c);
    RunKeepsAccount(Started(n, first), events);
    hide Merges, Runs, After;
    replay, live :| InOrderFor(s, c, replay, live);
    assert replay + [] == replay;
  }
}
