/**
 The event loop over handler objects (src/Core/Service/Handler.cpp, src/Core/Service/Handler.tpp,
 src/Core/Service/Server.cpp, src/Core/Service/Server.tpp). libevent appears as its contract: an event is
 armed or not, occurs only while armed, and is disarmed by occurring unless it is persistent.
 */
module EventLoop {
  import opened EventModel

  const NOTHING := Mask(false, false)

  class Handler {
    const persistent: bool
    const suspendable: bool
    var readEvent: bool
    var writeEvent: bool
    var suspended: Handler?
    /** The stream of the handler has been closed. */
    var closed: bool

    constructor (m: Mask, persistent: bool, suspendable: bool)
      ensures readEvent == m.read && writeEvent == m.write && suspended == null && !closed
      ensures this.persistent == persistent && this.suspendable == suspendable
    {
      this.persistent, this.suspendable := persistent, suspendable;
      readEvent, writeEvent, suspended, closed := false, false, null, false;
      new;
      SetHandlers(m);
    }

    method SetHandlers(m: Mask)
      modifies this`readEvent, this`writeEvent
      ensures readEvent == (old(readEvent) || m.read) && writeEvent == (old(writeEvent) || m.write)
    {
      if m.read {
        readEvent := true;
      }
      if m.write {
        writeEvent := true;
      }
    }

    method DropEvent()
      modifies this`readEvent, this`writeEvent
      ensures !readEvent && !writeEvent
    {
      readEvent, writeEvent := false, false;
    }

    method Resume()
      modifies this`readEvent, this`writeEvent
      ensures readEvent && writeEvent
    {
      SetHandlers(BOTH);
    }

    /** `setSuspend`: the handler to suspend then gives control back to the loop, asking for no event. */
    method SetSuspend(handlerToSuspend: Handler)
      modifies this`suspended
      ensures suspended == handlerToSuspend
    {
      suspended := handlerToSuspend;
    }
  }

  lemma ArmNothing<H>(s: State<H>, h: H)
    ensures Arm(s, h, NOTHING) == s
  {
  }

  /** What the code of a handler does with its activation in the end. */
  datatype Script =
    | Returns(mask: Mask)
    | Transfers(mask: Mask, persistent: bool, suspendable: bool)
    | Drops
    | Moves(mask: Mask, persistent: bool, suspendable: bool)

  /** The activation ended the way the code of the handler says. */
  ghost predicate Ends<H>(e: Ending<H>, script: Script) {
    match script
    case Returns(mask) => e == Return(mask)
    case Transfers(mask, persistent, suspendable) => e.Transfer? && e.mask == mask
    case Drops => e.Drop?
    case Moves(mask, persistent, suspendable) => e.Move? && e.mask == mask
  }

  class Server {
    var handlers: set<Handler>
    var retiredHandlers: seq<Handler>
    var currentHandler: Handler?
    var running: bool
    var shutDownNext: bool
    ghost var destroyed: set<Handler>

    ghost function Value(): State<Handler>
      reads this`handlers, this`retiredHandlers, this`destroyed, handlers
    {
      State(handlers, retiredHandlers,
            set h | h in handlers && h.readEvent,
            set h | h in handlers && h.writeEvent,
            map h | h in handlers && h.suspended != null :: h.suspended,
            destroyed)
    }

    constructor ()
      ensures Value() == EventModel.Start() && !running && !shutDownNext && currentHandler == null
    {
      handlers, retiredHandlers, currentHandler, running, shutDownNext := {}, [], null, false, false;
      destroyed := {};
    }

    method AddHandler(m: Mask, persistent: bool, suspendable: bool) returns (h: Handler)
      modifies this`handlers
      ensures fresh(h) && h.suspendable == suspendable && Value() == Added(old(Value()), h, m)
      ensures handlers == old(handlers) + {h}
    {
      h := new Handler(m, persistent, suspendable);
      handlers := handlers + {h};
    }

    method DelHandler(oldHandler: Handler)
      modifies this`retiredHandlers
      ensures retiredHandlers == old(retiredHandlers) + [oldHandler]
    {
      retiredHandlers := retiredHandlers + [oldHandler];
    }

    /** `doDropHandler`; moving a stream to another handler leaves it open. */
    method DropHandler(h: Handler, closeStream: bool)
      requires h in handlers && (h.suspended != null ==> h.suspended in handlers)
      modifies this`retiredHandlers, handlers`readEvent, handlers`writeEvent, h`closed
      ensures Value() == Dropped(old(Value()), h)
      ensures h.closed == (old(h.closed) || closeStream)
    {
      Retire(h, closeStream);
      if h.suspended != null {
        Resume(h.suspended);
      }
    }

    /** `dropEvent`, `close` and `delHandler`. */
    method Retire(h: Handler, closeStream: bool)
      requires h in handlers
      modifies this`retiredHandlers, h`readEvent, h`writeEvent, h`closed
      ensures Value() == Disarm(old(Value()), h).(retired := old(retiredHandlers) + [h])
      ensures h.closed == (old(h.closed) || closeStream)
    {
      h.DropEvent();
      if closeStream {
        h.closed := true;
      }
      DelHandler(h);
    }

    method Resume(h: Handler)
      requires h in handlers
      modifies h`readEvent, h`writeEvent
      ensures Value() == Arm(old(Value()), h, BOTH)
    {
      h.Resume();
    }

    /** `transferHandler`; `threw` when no suspendable handler is running. */
    method TransferHandler(m: Mask, persistent: bool, suspendable: bool) returns (threw: bool, ghost child: Handler?)
      requires currentHandler != null ==> currentHandler in handlers
      modifies this`handlers
      ensures threw <==> currentHandler == null || !currentHandler.suspendable
      ensures old(handlers) <= handlers && fresh(handlers - old(handlers))
      ensures threw ==> Value() == old(Value())
      ensures !threw ==> child != null && fresh(child) && Value() == Transferred(old(Value()), currentHandler, child, m)
    {
      if currentHandler == null || !currentHandler.suspendable {
        return true, null;
      }
      var handler := AddHandler(m, persistent, suspendable);
      handler.SetSuspend(currentHandler);
      threw, child := false, handler;
    }

    method MoveHandler(h: Handler, m: Mask, persistent: bool, suspendable: bool) returns (ghost child: Handler)
      requires h in handlers && (h.suspended != null ==> h.suspended in handlers)
      modifies this`retiredHandlers, this`handlers, handlers`readEvent, handlers`writeEvent, h`closed
      ensures old(handlers) <= handlers && fresh(handlers - old(handlers))
      ensures fresh(child) && Value() == Added(Dropped(old(Value()), h), child, m)
      ensures h.closed == old(h.closed)
    {
      DropHandler(h, false);
      child := AddHandler(m, persistent, suspendable);
    }

    /** An armed event occurs. */
    method Fire(h: Handler, write: bool)
      requires h in handlers
      modifies h`readEvent, h`writeEvent
      ensures Value() == Fired(old(Value()), h, write, h.persistent)
    {
      if !h.persistent {
        if write {
          h.writeEvent := false;
        } else {
          h.readEvent := false;
        }
      }
    }

    /** `eventActivate`: the code of the running handler; `newEventType` is what it answers. */
    method RunScript(h: Handler, script: Script) returns (newEventType: Mask, ghost ending: Ending<Handler>)
      requires h in handlers && (h.suspended != null ==> h.suspended in handlers)
      requires currentHandler == h && (script.Transfers? ==> h.suspendable)
      modifies this`retiredHandlers, this`handlers, handlers
      ensures if script.Returns? then newEventType == script.mask && Value() == old(Value())
        else newEventType == NOTHING && Value() == Ended(old(Value()), h, ending)
      ensures Ends(ending, script)
      ensures ending.Transfer? || ending.Move? ==> fresh(ending.child)
      ensures old(handlers) <= handlers && fresh(handlers - old(handlers))
    {
      newEventType := NOTHING;
      match script
      case Returns(mask) =>
        newEventType, ending := mask, Return(mask);
      case Transfers(mask, persistent, suspendable) =>
        var threw, child := TransferHandler(mask, persistent, suspendable);
        ending := Transfer(child, mask);
      case Drops =>
        DropHandler(h, true);
        ending := Drop;
      case Moves(mask, persistent, suspendable) =>
        ghost var child := MoveHandler(h, mask, persistent, suspendable);
        ending := Move(child, mask);
    }

    /** `setHandlers` with the answer of the activation. */
    method SetHandlers(h: Handler, m: Mask)
      requires h in handlers
      modifies h`readEvent, h`writeEvent
      ensures Value() == Arm(old(Value()), h, m)
    {
      h.SetHandlers(m);
    }

    /** The activation proper: the code of the handler, then `setHandlers` with its answer. */
    method RunAndArm(h: Handler, script: Script) returns (ghost ending: Ending<Handler>)
      requires h in handlers && (h.suspended != null ==> h.suspended in handlers)
      requires currentHandler == h && (script.Transfers? ==> h.suspendable)
      modifies this`retiredHandlers, this`handlers, handlers
      ensures old(handlers) <= handlers && fresh(handlers - old(handlers))
      ensures Value() == Ended(old(Value()), h, ending)
      ensures Ends(ending, script)
      ensures ending.Transfer? || ending.Move? ==> fresh(ending.child)
    {
      var newEventType;
      newEventType, ending := RunScript(h, script);
      ghost var t := Value();
      SetHandlers(h, newEventType);
      ArmNothing(t, h);
    }

    /** libevent calls back for an armed event: `activateEventHandlers` with the code of the handler. */
    method Activate(h: Handler, write: bool, script: Script) returns (ghost op: Op<Handler>)
      requires Inv(Value()) && h in handlers && (if write then h.writeEvent else h.readEvent)
      requires script.Transfers? ==> h.suspendable
      modifies this`retiredHandlers, this`handlers, this`currentHandler, handlers
      ensures Value() == Step(old(Value()), op) && Occurs(old(Value()), op)
      ensures op.Activate? && op.h == h && op.write == write && op.persistent == h.persistent
      ensures Ends(op.ending, script) && currentHandler == null
      ensures old(handlers) <= handlers && fresh(handlers - old(handlers))
    {
      Begin(h, write);
      ghost var ending := RunAndArm(h, script);
      currentHandler := null;
      op := Op.Activate(h, write, h.persistent, ending);
    }

    /** The event is gone, and the handler is the current one. */
    method Begin(h: Handler, write: bool)
      requires Inv(Value()) && h in handlers && (if write then h.writeEvent else h.readEvent)
      modifies this`currentHandler, h`readEvent, h`writeEvent
      ensures Value() == Fired(old(Value()), h, write, h.persistent) && currentHandler == h
      ensures h.suspended != null ==> h.suspended in handlers
    {
      FiredKeepsInv(Value(), h, write, h.persistent);
      Fire(h, write);
      currentHandler := h;
      assert h.suspended != null ==> Value().suspended[h] == h.suspended;
    }

    /** `purgeRetiredHandlers`. */
    method PurgeRetiredHandlers()
      modifies this`handlers, this`retiredHandlers, this`destroyed
      ensures Value() == Purged(old(Value()))
    {
      ghost var s, gone := Value(), SetOf(retiredHandlers);
      for k := 0 to |retiredHandlers|
        invariant retiredHandlers == old(retiredHandlers) && destroyed == old(destroyed)
        invariant handlers == old(handlers) - SetOf(retiredHandlers[..k])
      {
        handlers := handlers - {retiredHandlers[k]};
        assert retiredHandlers[..k + 1] == retiredHandlers[..k] + [retiredHandlers[k]];
      }
      assert retiredHandlers[..|retiredHandlers|] == retiredHandlers;
      destroyed := destroyed + gone;
      retiredHandlers := [];
      ghost var t := Value();
      assert t.registered == s.registered - gone && t.destroyed == s.destroyed + gone;
      assert t.armedRead == s.armedRead - gone && t.armedWrite == s.armedWrite - gone;
      forall h | h in s.suspended && h !in gone
        ensures h in t.suspended && t.suspended[h] == s.suspended[h]
      {
      }
      assert t.suspended.Keys == s.suspended.Keys - gone;
    }

    /** Once this event has occurred, the handler has no event armed and may wait for another handler. */
    predicate MayWait(h: Handler, write: bool)
      reads h
    {
      h.suspendable && !h.persistent && !(if write then h.readEvent else h.writeEvent)
    }

    ghost predicate NoneArmed()
      reads this`handlers, handlers
    {
      forall h :: h in handlers ==> !h.readEvent && !h.writeEvent
    }

    /**
     `runLoop`: as many armed events as given, as long as there are any, whatever the code of their handlers
     does, as long as handlers wait unarmed. The run that led here goes on by these activations.
     */
    method RunLoop(events: nat, ghost states: seq<State<Handler>>, ghost ops: seq<Op<Handler>>)
      returns (ghost states': seq<State<Handler>>, ghost ops': seq<Op<Handler>>)
      requires IsRun(states, ops) && states[|ops|] == Value()
      modifies this`retiredHandlers, this`handlers, this`currentHandler, this`shutDownNext, handlers
      ensures IsRun(states', ops') && states'[|ops'|] == Value() && states <= states' && ops <= ops'
      ensures Activations(ops'[|ops|..]) && (|ops'| == |ops| + events || (|ops'| < |ops| + events && NoneArmed()))
      ensures fresh(handlers - old(handlers))
    {
      states', ops' := states, ops;
      for k := 0 to events
        invariant IsRun(states', ops') && states'[|ops'|] == Value() && states <= states' && ops <= ops'
        invariant Activations(ops'[|ops|..]) && (|ops'| == |ops| + k || (|ops'| < |ops| + k && NoneArmed()))
        invariant fresh(handlers - old(handlers))
      {
        var armed := set h | h in handlers && (h.readEvent || h.writeEvent);
        assert NoneArmed() <==> armed == {} by {
          assert forall h :: h in armed <==> h in handlers && (h.readEvent || h.writeEvent);
        }
        if armed != {} {
          var h :| h in armed;
          states', ops' := Occur(h, states', ops');
        }
        shutDownNext := *;
      }
    }

    /** One of the armed events of the handler occurs. */
    method Occur(h: Handler, ghost states: seq<State<Handler>>, ghost ops: seq<Op<Handler>>)
      returns (ghost states': seq<State<Handler>>, ghost ops': seq<Op<Handler>>)
      requires IsRun(states, ops) && states[|ops|] == Value() && h in handlers && (h.readEvent || h.writeEvent)
      modifies this`retiredHandlers, this`handlers, this`currentHandler, handlers
      ensures IsRun(states', ops') && states'[|ops'|] == Value() && states <= states'
      ensures |ops'| == |ops| + 1 && ops' == ops + [ops'[|ops|]] && ops'[|ops|].Activate? && ops'[|ops|].h == h
      ensures fresh(handlers - old(handlers))
    {
      RunKeepsInv(states, ops, |ops|);
      var write :| if write then h.writeEvent else h.readEvent;
      var script: Script :| script.Transfers? ==> MayWait(h, write);
      assert script.Transfers? ==> MayWait(h, write);
      ghost var s := Value();
      ghost var op := Activate(h, write, script);
      RunGoesOn(states, ops, op);
      states', ops' := states + [Step(s, op)], ops + [op];
    }

    /** `start`, for as many rounds as given or until shut down: each round some activations, then a purge. */
    method Start(rounds: nat, ghost states: seq<State<Handler>>, ghost ops: seq<Op<Handler>>)
      returns (ghost states': seq<State<Handler>>, ghost ops': seq<Op<Handler>>)
      requires IsRun(states, ops) && states[|ops|] == Value()
      modifies this, handlers
      ensures IsRun(states', ops') && states'[|ops'|] == Value() && states <= states' && ops <= ops'
      ensures Rounds(ops'[|ops|..]) <= rounds && (shutDownNext || Rounds(ops'[|ops|..]) == rounds)
      ensures ops' == ops || (ops'[|ops'| - 1].Purge? && retiredHandlers == [])
      ensures !running
    {
      running := true;
      states', ops' := states, ops;
      var k := 0;
      while !shutDownNext && k < rounds
        invariant IsRun(states', ops') && states'[|ops'|] == Value() && states <= states' && ops <= ops'
        invariant k <= rounds && Rounds(ops'[|ops|..]) == k
        invariant ops' == ops || (ops'[|ops'| - 1].Purge? && retiredHandlers == [])
        invariant fresh(handlers - old(handlers))
        decreases rounds - k
      {
        states', ops' := Round(states', ops', |ops|);
        k := k + 1;
      }
      running := false;
    }

    /** One round of the loop. */
    method Round(ghost states: seq<State<Handler>>, ghost ops: seq<Op<Handler>>, ghost from: nat)
      returns (ghost states': seq<State<Handler>>, ghost ops': seq<Op<Handler>>)
      requires IsRun(states, ops) && states[|ops|] == Value() && from <= |ops|
      modifies this`retiredHandlers, this`handlers, this`currentHandler, this`shutDownNext, this`destroyed, handlers
      ensures IsRun(states', ops') && states'[|ops'|] == Value() && states <= states' && ops <= ops'
      ensures |ops| < |ops'| && ops'[|ops'| - 1].Purge? && retiredHandlers == []
      ensures Rounds(ops'[from..]) == Rounds(ops[from..]) + 1
      ensures fresh(handlers - old(handlers))
    {
      var events: nat :| true;
      states', ops' := RunLoop(events, states, ops);
      RoundEnds(ops, ops', from);
      RunGoesOn(states', ops', Op.Purge);
      states', ops' := states' + [Purged(Value())], ops' + [Op.Purge];
      PurgeRetiredHandlers();
    }
  }

  ghost predicate Activations<H>(ops: seq<Op<H>>) {
    forall i :: 0 <= i < |ops| ==> ops[i].Activate?
  }

  /** The number of rounds: one for each purge. */
  ghost function Rounds<H>(ops: seq<Op<H>>): nat {
    if ops == [] then 0 else Rounds(ops[..|ops| - 1]) + if ops[|ops| - 1].Purge? then 1 else 0
  }

  lemma {:induction false} RoundsOfActivations<H>(ops: seq<Op<H>>, more: seq<Op<H>>)
    requires Activations(more)
    ensures Rounds(ops + more) == Rounds(ops)
  {
    if more == [] {
      assert ops + more == ops;
    } else {
      RoundsOfActivations(ops, more[..|more| - 1]);
      assert (ops + more)[..|ops + more| - 1] == ops + more[..|more| - 1];
    }
  }

  lemma RoundEnds<H>(ops: seq<Op<H>>, after: seq<Op<H>>, from: nat)
    requires from <= |ops| && ops <= after && Activations(after[|ops|..])
    ensures Rounds((after + [Op.Purge])[from..]) == Rounds(ops[from..]) + 1
  {
    assert after[from..] == ops[from..] + after[|ops|..];
    RoundsOfActivations(ops[from..], after[|ops|..]);
    assert (after + [Op.Purge])[from..] == after[from..] + [Op.Purge];
    assert (after[from..] + [Op.Purge])[..|after| - from] == after[from..];
  }
}
