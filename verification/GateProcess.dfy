/** The table of `UiGate` and the requests blocked on it, each method carrying
    out one step of the gate; `Answer` is the two steps of one call with nothing
    in between. */
module GateProcess {
  import opened Options
  import opened AgentGate

  class UiGate {
    var waiting: map<CallId, Request>
    var inHand: map<Request, Decision>
    var channel: map<Request, Decision>
    var phase: map<Request, Phase>
    var call: map<Request, CallId>
    ghost var taken: multiset<Request>
    ghost var told: set<Request>

    ghost function At(): Gate
      reads this
    {
      Gate(waiting, inHand, channel, phase, call, taken, told)
    }

    constructor ()
      ensures At() == NEW
    {
      waiting, inHand, channel, phase, call := map[], map[], map[], map[], map[];
      taken, told := multiset{}, {};
    }

    method Park(r: Request, id: CallId)
      requires Enabled(At(), Event.Park(r, id))
      modifies this
      ensures At() == Step(old(At()), Event.Park(r, id))
    {
      waiting := waiting[id := r];
      phase, call := phase[r := Parked], call[r := id];
    }

    /** The sender under an id, out of the table. */
    method Take(id: CallId, decision: Decision) returns (sender: Option<Request>)
      modifies this
      ensures At() == Step(old(At()), TakeAnswer(id, decision))
      ensures sender == if id in old(waiting) then Some(old(waiting)[id]) else None
    {
      if id !in waiting {
        return None;
      }
      sender := Some(waiting[id]);
      waiting := waiting - {id};
      inHand := inHand[sender.value := decision];
      taken := taken + multiset{sender.value};
    }

    method Send(r: Request) returns (ok: bool)
      requires Enabled(At(), Event.Send(r))
      modifies this
      ensures At() == Step(old(At()), Event.Send(r))
      ensures ok <==> !(r in phase && phase[r].Returned?)
    {
      ok := !(r in phase && phase[r].Returned?);
      if ok {
        channel, told := channel[r := inHand[r]], told + {r};
      }
      inHand := inHand - {r};
    }

    /** True exactly when a sender was waiting under the id and its request is
        still there to hear. */
    method Answer(id: CallId, decision: Decision) returns (ok: bool)
      modifies this
      ensures id !in old(waiting) ==> !ok && At() == old(At())
      ensures id in old(waiting) ==>
        var r, held := old(waiting)[id], Step(old(At()), TakeAnswer(id, decision));
        Enabled(held, Event.Send(r)) && At() == Step(held, Event.Send(r))
      ensures ok <==> id in old(waiting) && !(old(waiting)[id] in old(phase) && old(phase)[old(waiting)[id]].Returned?)
      ensures waiting == old(waiting) - {id}
      ensures ok ==> channel == old(channel)[old(waiting)[id] := decision]
    {
      var sender := Take(id, decision);
      if sender == None {
        return false;
      }
      ok := Send(sender.value);
    }

    method ReleaseAll()
      modifies this
      ensures At() == Step(old(At()), Event.ReleaseAll)
      ensures waiting == map[] && forall r :: r in old(waiting).Values ==> r in inHand && inHand[r] == Deny
    {
      inHand := inHand + (map r | r in waiting.Values :: Deny);
      taken := taken + multiset(waiting.Values);
      waiting := map[];
    }

    method Receive(r: Request) returns (decision: Decision)
      requires Enabled(At(), Event.Receive(r))
      modifies this
      ensures At() == Step(old(At()), Event.Receive(r)) && decision == channel[r]
    {
      decision := channel[r];
      phase := phase[r := Returned(decision, false)];
    }

    method GiveUp(r: Request)
      requires Enabled(At(), Event.GiveUp(r))
      modifies this
      ensures At() == Step(old(At()), Event.GiveUp(r))
    {
      phase := phase[r := GaveUp];
    }

    method CleanUp(r: Request) returns (decision: Decision)
      requires Enabled(At(), Event.CleanUp(r))
      modifies this
      ensures At() == Step(old(At()), Event.CleanUp(r)) && decision == Deny
    {
      waiting := waiting - {call[r]};
      decision := Deny;
      phase := phase[r := Returned(decision, true)];
    }
  }
}
