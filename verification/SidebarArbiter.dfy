/** The closure variables of `createSidebarHover` and the methods and timer
    callbacks that update them, each carrying out the matching step. */
module SidebarArbiter {
  import opened Options
  import opened SidebarHover

  class Arbiter {
    var wanted: bool
    var open: Option<nat>
    var close: Option<nat>
    var exit: Option<nat>
    var closing: bool
    var locks: set<string>
    /** The host. */
    var pin: Option<bool>
    var shown: bool
    var hostHeld: bool
    var reduced: bool
    var now: nat
    ghost var log: seq<Presented>

    ghost function At(): State
      reads this
    {
      State(wanted, open, close, exit, closing, locks, pin, shown, hostHeld, reduced, now, log)
    }

    constructor (pin: Option<bool>, reduced: bool)
      ensures At() == Initial(pin, reduced) && At().Valid()
    {
      wanted, open, close, exit, closing, locks := false, None, None, None, false, {};
      this.pin, shown, hostHeld, this.reduced, now, log := pin, false, false, reduced, 0, [];
    }

    predicate Pinned()
      reads this
    {
      pin == Some(true)
    }

    predicate Held()
      reads this
    {
      locks != {} || hostHeld
    }

    /** The host's side: `setSidebarPeeking`, or only the closing flag. */
    method Present(phase: Phase)
      modifies this`shown, this`log
      ensures At() == old(At()).Present(phase)
    {
      log := log + [Presented(phase, wanted, Held(), Pinned())];
      if phase != Closing {
        shown := phase == Open && !Pinned();
      }
    }

    method ClearOpen()
      modifies this`open
      ensures At() == old(At()).ClearOpen()
    {
      open := None;
    }

    method ClearClose()
      modifies this`close, this`exit
      ensures At() == old(At()).ClearClose()
    {
      close, exit := None, None;
    }

    method Show()
      modifies this
      ensures At() == old(At()).Show()
    {
      ClearOpen();
      ClearClose();
      closing := false;
      if !Pinned() {
        Present(Open);
      }
    }

    method Leave()
      modifies this
      ensures At() == old(At()).Leave()
      ensures old(At()).Valid() ==> At().Valid()
    {
      if At().Valid() {
        LeaveKeeps(At());
      }
      wanted := false;
      ClearOpen();
      if Pinned() || !shown || Held() || close != None || closing {
        return;
      }
      close := Some(now + CLOSE_INTENT);
    }

    method OpenFires()
      requires open.Some?
      modifies this
      ensures At() == old(At()).OpenFires()
      ensures old(At()).Valid() ==> At().Valid()
    {
      if At().Valid() {
        OpenFiresKeeps(At());
      }
      open := None;
      if wanted && !Pinned() {
        Show();
      }
    }

    method CloseFires()
      requires close.Some?
      modifies this
      ensures At() == old(At()).CloseFires()
      ensures old(At()).Valid() ==> At().Valid()
    {
      if At().Valid() {
        CloseFiresKeeps(At());
      }
      close := None;
      if wanted || Held() || Pinned() {
        return;
      }
      closing := true;
      Present(Closing);
      exit := Some(now + if reduced then 0 else EXIT);
    }

    method ExitFires()
      requires exit.Some?
      modifies this
      ensures At() == old(At()).ExitFires()
      ensures old(At()).Valid() ==> At().Valid()
    {
      if At().Valid() {
        ExitFiresKeeps(At());
      }
      exit := None;
      if wanted || Held() {
        Show();
        return;
      }
      closing := false;
      Present(Hidden);
    }

    method Reconcile()
      modifies this
      ensures At() == old(At()).Reconcile()
      ensures old(At()).Valid() ==> At().Valid()
    {
      if At().Valid() {
        ReconcileKeeps(At());
      }
      if Pinned() {
        ClearOpen();
        ClearClose();
        closing := false;
        return;
      }
      if wanted || Held() {
        ClearClose();
        if closing {
          Show();
        }
      } else {
        Leave();
      }
    }

    method EdgeEnter()
      modifies this
      ensures At() == old(At()).EdgeEnter()
      ensures old(At()).Valid() ==> At().Valid()
    {
      if At().Valid() {
        EnteringKeeps(At());
      }
      wanted := true;
      ClearClose();
      if Pinned() {
        return;
      }
      if closing || shown {
        Show();
        return;
      }
      if open != None {
        return;
      }
      open := Some(now + OPEN_INTENT);
    }

    method EdgeExit(outsidePanel: bool)
      modifies this
      ensures At() == old(At()).EdgeExit(outsidePanel)
      ensures old(At()).Valid() ==> At().Valid()
    {
      if At().Valid() {
        LeavingKeeps(At(), outsidePanel);
      }
      ClearOpen();
      if !shown || outsidePanel {
        Leave();
      }
    }

    method Enter()
      modifies this
      ensures At() == old(At()).Enter()
      ensures old(At()).Valid() ==> At().Valid()
    {
      if At().Valid() {
        EnteringKeeps(At());
      }
      wanted := true;
      if shown || closing {
        Show();
      } else {
        ClearClose();
      }
    }

    method Hold(key: string, on: bool)
      modifies this
      ensures At() == old(At()).Hold(key, on)
      ensures old(At()).Valid() ==> At().Valid()
    {
      if At().Valid() {
        HoldKeeps(At(), key, on);
      }
      hide State.Valid, State.Reconcile;
      if on {
        locks := locks + {key};
      } else {
        locks := locks - {key};
      }
      Reconcile();
    }

    method Reset()
      modifies this
      ensures At() == old(At()).Reset()
      ensures old(At()).Valid() ==> At().Valid()
    {
      if At().Valid() {
        StepKeepsValid(At(), Event.Reset);
      }
      ClearOpen();
      ClearClose();
      wanted, closing := false, false;
      locks := {};
    }

    method Blur()
      modifies this
      ensures At() == old(At()).Blur()
      ensures old(At()).Valid() ==> At().Valid()
    {
      if At().Valid() {
        LeavingKeeps(At(), true);
      }
      ClearOpen();
      Leave();
    }

    /** The store's pin setting changes, and its subscriber resets. */
    method PinTo(on: Option<bool>, hides: bool)
      modifies this
      ensures At() == old(At()).PinTo(on, hides)
      ensures old(At()).Valid() ==> At().Valid()
    {
      if At().Valid() {
        PinToKeeps(At(), on, hides);
      }
      hide State.Valid, State.Reset;
      var previous := pin;
      pin := on;
      if hides {
        shown := false;
      }
      if on != previous {
        Reset();
      }
    }
  }
}
