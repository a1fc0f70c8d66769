/** The log, the event target and the emitter of one live session, each method
    carrying out one step; `Emit` and `Attach` are the steps of one call with
    nothing in between. */
module SessionProcess {
  import opened AgentReattach

  class LiveSession {
    var length: nat
    var target: Consumer
    var emitter: Emitter
    var failed: bool
    var attached: map<Consumer, Attachment>
    var delivered: map<Consumer, seq<Item>>
    ghost var replayed: map<Consumer, nat>
    ghost var aimedAt: map<nat, Consumer>

    ghost function At(): Session
      reads this
    {
      Session(length, target, emitter, failed, attached, delivered, replayed, aimedAt)
    }

    constructor (n: nat, first: Consumer)
      ensures At() == Started(n, first)
    {
      length, target, emitter, failed := n, first, Idle, false;
      attached, delivered := map[first := Replaying([])], map[first := Places(n)];
      replayed, aimedAt := map[first := n], map[];
    }

    /** The forward closure: read the target, then hand the event over. */
    method Aim()
      requires Enabled(At(), Event.Aim)
      modifies this`emitter, this`aimedAt
      ensures At() == Step(old(At()), Event.Aim)
    {
      if emitter.item.Logged? {
        aimedAt := aimedAt[emitter.item.at := target];
      }
      emitter := Aimed(emitter.item, target);
    }

    method Deliver()
      requires Enabled(At(), Event.Deliver)
      modifies this`emitter, this`delivered
      ensures At() == Step(old(At()), Event.Deliver)
    {
      delivered := delivered[emitter.to := delivered[emitter.to] + [emitter.item]];
      emitter := Idle;
    }

    method Append()
      requires Enabled(At(), Event.Append)
      modifies this`emitter, this`length
      ensures At() == Step(old(At()), Event.Append)
    {
      emitter := Forwarding(Logged(length));
      length := length + 1;
    }

    method AppendFails()
      requires Enabled(At(), Event.AppendFails)
      modifies this`emitter, this`failed
      ensures At() == Step(old(At()), Event.AppendFails)
    {
      if failed {
        return;
      }
      failed := true;
      emitter := Forwarding(Unlogged);
    }

    /** One event: nobody hears it unless the log took it, and the first failure
        is heard in its place. */
    method Emit(logs: bool)
      requires emitter == Idle && target in delivered
      modifies this
      ensures emitter == Idle && target == old(target) && attached == old(attached)
      ensures length == old(length) + (if logs then 1 else 0) && failed == (old(failed) || !logs)
      ensures delivered == if !logs && old(failed) then old(delivered)
                           else old(delivered)[target := old(delivered)[target] + [if logs then Logged(old(length)) else Unlogged]]
    {
      if logs {
        Append();
      } else {
        var silent := failed;
        AppendFails();
        if silent {
          return;
        }
      }
      Aim();
      Deliver();
    }

    method NoLog()
      requires Enabled(At(), Event.NoLog)
      modifies this`emitter
      ensures At() == Step(old(At()), Event.NoLog)
    {
      emitter := Forwarding(Unlogged);
    }

    /** One event of a session that keeps no log goes straight to the consumer. */
    method EmitUnlogged()
      requires emitter == Idle && length == 0 && target in delivered
      modifies this
      ensures emitter == Idle && target == old(target) && attached == old(attached) && length == 0 && failed == old(failed)
      ensures delivered == old(delivered)[target := old(delivered)[target] + [Unlogged]]
    {
      NoLog();
      Aim();
      Deliver();
    }

    method Swap(c: Consumer)
      requires Enabled(At(), Event.Swap(c))
      modifies this`target, this`attached, this`delivered
      ensures At() == Step(old(At()), Event.Swap(c))
    {
      target := c;
      attached, delivered := attached[c := Swapped], delivered[c := []];
    }

    method ReadLog(c: Consumer) returns (replay: seq<Item>)
      requires Enabled(At(), Event.ReadLog(c))
      modifies this`attached, this`replayed
      ensures At() == Step(old(At()), Event.ReadLog(c)) && replay == Places(length)
    {
      replay := Places(length);
      attached := attached[c := Replaying(replay)];
      replayed := replayed[c := length];
    }

    method Replay(c: Consumer)
      requires Enabled(At(), Event.Replay(c))
      modifies this`attached, this`delivered
      ensures At() == Step(old(At()), Event.Replay(c))
    {
      var rest := attached[c].rest;
      delivered := delivered[c := delivered[c] + [rest[0]]];
      attached := attached[c := Replaying(rest[1..])];
    }

    method ReadFails(c: Consumer)
      requires Enabled(At(), Event.ReadFails(c))
      modifies this`attached
      ensures At() == Step(old(At()), Event.ReadFails(c))
    {
      attached := attached[c := Broken];
    }

    method ReplayAll(c: Consumer)
      requires c in attached && attached[c].Replaying? && c in delivered
      modifies this`attached, this`delivered
      ensures attached == old(attached)[c := Replaying([])]
      ensures delivered == old(delivered)[c := old(delivered)[c] + old(attached)[c].rest]
    {
      var replay := attached[c].rest;
      assert attached[c] == Replaying(replay[0..]) && delivered[c] + replay[..0] == delivered[c];
      for i := 0 to |replay|
        invariant attached == old(attached)[c := Replaying(replay[i..])]
        invariant delivered == old(delivered)[c := old(delivered)[c] + replay[..i]]
      {
        Replay(c);
        assert replay[i..][1..] == replay[i + 1..] && replay[..i + 1] == replay[..i] + [replay[i]];
        assert old(delivered)[c] + replay[..i + 1] == old(delivered)[c] + replay[..i] + [replay[i]];
      }
      assert replay[|replay|..] == [] && replay[..|replay|] == replay;
    }

    /** An attach nothing interferes with hands over the log, whole and in order.
        Where the log cannot be read the target is theirs all the same. */
    method Attach(c: Consumer, readable: bool) returns (ok: bool)
      requires Enabled(At(), Event.Swap(c))
      modifies this
      ensures ok == readable && target == c && length == old(length) && emitter == old(emitter) && failed == old(failed)
      ensures attached == old(attached)[c := if readable then Replaying([]) else Broken]
      ensures delivered == old(delivered)[c := if readable then Places(length) else []]
    {
      Swap(c);
      if !readable {
        ReadFails(c);
        return false;
      }
      var replay := ReadLog(c);
      ReplayAll(c);
      assert [] + replay == replay;
      ok := true;
    }
  }
}
