/** The module state of `src/persist.ts` and the functions that update it,
    each carrying out the matching step on one scope's `Slot`. */
module PersistStore {
  import opened Options
  import opened Persist

  /** What `JSON.stringify` gives: a text, or a throw. */
  datatype Serialized = Json(text: string) | Throws

  datatype LoadResult = Value(text: string) | Missing | ReadFailed | InvalidJson

  /** A load either answers at once or awaits the operations enqueued so far. */
  datatype LoadStart = Answer(result: LoadResult) | Await(ticket: nat)

  datatype Chain = Chain(issued: seq<Op>, landed: nat, done: nat)

  /** 1 to 120 ASCII letters, digits, colons, underscores and hyphens: no path, no dot,
      no space. */
  predicate ValidScope(scope: Scope): (valid: bool)
    ensures valid ==> scope != "" && |scope| <= 120 && forall i :: 0 <= i < |scope| ==> scope[i] !in "/\\. " && scope[i] < '\U{0080}'
  {
    1 <= |scope| <= 120 && forall i :: 0 <= i < |scope| ==>
      'A' <= scope[i] <= 'Z' || 'a' <= scope[i] <= 'z' || '0' <= scope[i] <= '9' || scope[i] in ":_-"
  }

  function Parsed(raw: Option<string>, parses: string -> bool): LoadResult {
    match raw
    case None => Missing
    case Some(text) => if parses(text) then Value(text) else InvalidJson
  }

  class Store {
    const parses: string -> bool
    var pending: map<Scope, string>
    var timers: set<Scope>
    var writeBlocked: set<Scope>
    var chains: map<Scope, Chain>
    /** The backend. */
    var disk: map<Scope, string>

    function ChainOf(scope: Scope): Chain
      reads this
    {
      if scope in chains then chains[scope] else Chain([], 0, 0)
    }

    function At(scope: Scope): Slot
      reads this
    {
      var c := ChainOf(scope);
      Slot(if scope in pending then Some(pending[scope]) else None, scope in timers, scope in writeBlocked,
           c.issued, c.landed, c.done, if scope in disk then Some(disk[scope]) else None)
    }

    ghost predicate Valid()
      reads this
    {
      forall scope :: At(scope).Valid()
    }

    twostate predicate OnlyTouches(scope: Scope)
      reads this
    {
      forall other {:trigger At(other)} :: other != scope ==> At(other) == old(At(other))
    }

    constructor (parses: string -> bool, disk: map<Scope, string>)
      ensures Valid() && this.parses == parses
      ensures forall scope :: At(scope) == Initial(if scope in disk then Some(disk[scope]) else None).slot
    {
      this.parses, this.disk := parses, disk;
      pending, timers, writeBlocked, chains := map[], {}, {}, map[];
    }

    /** Put an operation at the end of the scope's chain. */
    method Enqueue(scope: Scope, op: Op)
      modifies this`chains
      ensures ChainOf(scope) == old(ChainOf(scope)).(issued := old(ChainOf(scope)).issued + [op])
      ensures forall other :: other != scope ==> ChainOf(other) == old(ChainOf(other))
    {
      var c := ChainOf(scope);
      chains := chains[scope := c.(issued := c.issued + [op])];
    }

    method MarkStateInvalid(scope: Scope)
      requires Valid()
      modifies this`writeBlocked
      ensures OnlyTouches(scope)
      ensures At(scope) == if ValidScope(scope) then old(At(scope)).(blocked := true) else old(At(scope))
      ensures Valid()
    {
      if ValidScope(scope) {
        writeBlocked := writeBlocked + {scope};
      }
    }

    method FlushScope(scope: Scope)
      requires Valid()
      modifies this`pending, this`timers, this`chains
      ensures OnlyTouches(scope)
      ensures At(scope) == old(At(scope)).Flush()
      ensures Valid()
    {
      timers := timers - {scope};
      if scope !in pending {
        return;
      }
      var json := pending[scope];
      pending := pending - {scope};
      Enqueue(scope, Write(json));
    }

    /** The armed timer of a scope runs out. */
    method TimerFires(scope: Scope)
      requires Valid() && scope in timers
      modifies this`pending, this`timers, this`chains
      ensures OnlyTouches(scope)
      ensures At(scope) == old(At(scope)).Flush()
      ensures Valid()
    {
      FlushScope(scope);
    }

    method SaveState(scope: Scope, data: Serialized)
      requires Valid()
      modifies this`pending, this`timers
      ensures OnlyTouches(scope)
      ensures At(scope) == if ValidScope(scope) && data.Json? then old(At(scope)).Save(data.text) else old(At(scope))
      ensures Valid()
    {
      if !ValidScope(scope) || scope in writeBlocked || data.Throws? {
        return;
      }
      pending := pending[scope := data.text];
      timers := timers + {scope};
    }

    method DeleteState(scope: Scope)
      requires Valid()
      modifies this`pending, this`timers, this`chains
      ensures OnlyTouches(scope)
      ensures At(scope) == if ValidScope(scope) then old(At(scope)).Delete() else old(At(scope))
      ensures Valid()
    {
      if !ValidScope(scope) {
        return;
      }
      timers := timers - {scope};
      pending := pending - {scope};
      Enqueue(scope, Erase);
    }

    /** The operation at the head of the chain takes effect on the backend. */
    method HeadLands(scope: Scope)
      requires Valid() && At(scope).CanLand()
      modifies this`chains, this`disk
      ensures OnlyTouches(scope)
      ensures At(scope) == old(At(scope)).Land()
      ensures Valid()
    {
      var c := ChainOf(scope);
      match c.issued[c.landed] {
        case Write(text) => disk := disk[scope := text];
        case Erase => disk := disk - {scope};
      }
      chains := chains[scope := c.(landed := c.landed + 1)];
    }

    method HeadSettles(scope: Scope)
      requires Valid() && At(scope).CanSettle()
      modifies this`chains, this`writeBlocked
      ensures OnlyTouches(scope)
      ensures At(scope) == old(At(scope)).Settle()
      ensures Valid()
    {
      var c := ChainOf(scope);
      if c.issued[c.done] == Erase {
        writeBlocked := writeBlocked - {scope};
      }
      chains := chains[scope := c.(done := c.done + 1)];
    }

    method HeadFails(scope: Scope)
      requires Valid() && At(scope).CanLand()
      modifies this`chains, this`pending
      ensures OnlyTouches(scope)
      ensures At(scope) == old(At(scope)).Fail()
      ensures Valid()
    {
      var c := ChainOf(scope);
      chains := chains[scope := c.(landed := c.landed + 1, done := c.done + 1)];
      if c.issued[c.landed].Write? && scope !in pending {
        pending := pending[scope := c.issued[c.landed].text];
      }
    }

    /** The part of `loadStateResult` up to its first await. */
    method LoadStarts(scope: Scope) returns (r: LoadStart)
      requires Valid()
      modifies this`writeBlocked
      ensures OnlyTouches(scope)
      ensures !ValidScope(scope) ==> r == Answer(ReadFailed) && At(scope) == old(At(scope))
      ensures ValidScope(scope) ==> var was := old(At(scope));
                if was.pending.Some? then r == Answer(Parsed(was.pending, parses)) && At(scope) == was.AfterLoad(was.pending, parses)
                else r == Await(|was.issued|) && At(scope) == was
      ensures ValidScope(scope) && scope in pending && parses(pending[scope]) ==>
                r == Answer(Value(pending[scope])) && scope !in writeBlocked
      ensures ValidScope(scope) && scope in pending && !parses(pending[scope]) ==> r == Answer(InvalidJson) && scope in writeBlocked
      ensures Valid()
    {
      if !ValidScope(scope) {
        return Answer(ReadFailed);
      }
      if scope in pending {
        var result := Settled(scope, Some(pending[scope]));
        return Answer(result);
      }
      return Await(|ChainOf(scope).issued|);
    }

    /** The rest of it, once everything enqueued before the call has settled, when
        nothing comes between the read and its return; `Settled` alone is what a
        load goes on with when something did. */
    method LoadFinishes(scope: Scope, ticket: nat, readable: bool) returns (result: LoadResult)
      requires Valid() && ticket <= At(scope).done
      modifies this`writeBlocked
      ensures OnlyTouches(scope)
      ensures var was := old(At(scope));
              if readable then result == Parsed(was.stored, parses) && At(scope) == was.AfterLoad(was.stored, parses)
              else result == ReadFailed && At(scope) == was.(blocked := true)
      ensures !readable ==> scope in writeBlocked
      ensures readable && scope !in disk ==> result == Missing && scope !in writeBlocked
      ensures readable && scope in disk && parses(disk[scope]) ==> result == Value(disk[scope]) && scope !in writeBlocked
      ensures readable && scope in disk && !parses(disk[scope]) ==> result == InvalidJson && scope in writeBlocked
      ensures Valid()
    {
      if !readable {
        writeBlocked := writeBlocked + {scope};
        return ReadFailed;
      }
      result := Settled(scope, if scope in disk then Some(disk[scope]) else None);
    }

    /** The common tail: lift or set the write block by what was read. */
    method Settled(scope: Scope, raw: Option<string>) returns (result: LoadResult)
      requires Valid()
      modifies this`writeBlocked
      ensures OnlyTouches(scope)
      ensures result == Parsed(raw, parses) && At(scope) == old(At(scope)).AfterLoad(raw, parses)
      ensures Valid()
    {
      if raw == None {
        writeBlocked := writeBlocked - {scope};
        return Missing;
      }
      if parses(raw.value) {
        writeBlocked := writeBlocked - {scope};
        return Value(raw.value);
      }
      writeBlocked := writeBlocked + {scope};
      return InvalidJson;
    }

    /** Every scope with something buffered is flushed, no other is touched, and the
        caller waits for everything then enqueued in any scope. */
    method FlushAll() returns (awaits: map<Scope, nat>)
      requires Valid()
      modifies this`pending, this`timers, this`chains
      ensures Valid() && pending == map[]
      ensures forall scope :: At(scope) == if old(At(scope)).pending.Some? then old(At(scope)).Flush() else old(At(scope))
      ensures forall scope :: |At(scope).issued| == if scope in awaits then awaits[scope] else 0
    {
      var left := pending.Keys;
      while left != {}
        invariant Valid() && left == pending.Keys && left <= old(pending.Keys)
        invariant forall scope :: scope in left || scope !in old(pending.Keys) ==> At(scope) == old(At(scope))
        invariant forall scope :: scope in old(pending.Keys) && scope !in left ==> At(scope) == old(At(scope)).Flush()
        decreases left
      {
        var scope :| scope in left;
        left := left - {scope};
        ghost var was := pending;
        FlushScope(scope);
        forall other | other != scope
          ensures other in pending <==> other in was
        {
          assert At(other).pending.Some? <==> other in pending;
        }
        assert scope !in pending by { assert At(scope).pending == None; }
      }
      awaits := map scope | scope in chains :: |chains[scope].issued|;
    }
  }
}
