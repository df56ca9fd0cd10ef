/** The dispatcher of EventHandlerExtensions.cs and the hub of
    LibraryEvents.cs. The two call each other (a fault with no exception
    handler is reported to the hub, and the hub dispatches to its listeners
    through SafeInvoke), so they share one module. Each method is proved
    against the reference description in EventModel. */
module Dispatch {
  import opened Wrappers
  import opened EventModel

  /** LibraryEvents: the process-wide hub. `listeners` is the invocation list
      of s_suppressedExceptionHandler (empty when the field is null). The
      lock s_suppressedExceptionLock makes each method an atomic update. */
  class LibraryEvents {
    var listeners: seq<Handler>

    constructor ()
      ensures listeners == []
    {
      listeners := [];
    }

    /** `add` of the SuppressedException event. */
    method Subscribe(h: Handler)
      modifies this
      ensures listeners == old(listeners) + [h]
    {
      listeners := listeners + [h];
    }

    /** `remove` of the SuppressedException event, for the delegate `id`. */
    method Unsubscribe(id: nat)
      modifies this
      ensures listeners == RemoveLast(old(listeners), id)
    {
      listeners := RemoveLast(listeners, id);
    }

    /** OnSuppressedException: drop the report when nobody listens, otherwise
        dispatch it sequentially with a handler that throws instead of
        reporting again. */
    method OnSuppressedException(sender: string, ex: Exception) returns (r: Run)
      modifies this
      decreases 1, 0
      ensures r == Report(sender, ex, old(listeners))
      ensures listeners == r.listeners
      ensures old(listeners) == [] ==> r.escaped == None && listeners == []
    {
      if listeners == [] {
        return Run([Suppressed(sender, ex, [])], listeners, None);
      }
      var occ := Occurrence(SuppressedExceptionEventType, sender, UnhandledExceptionEventArgs(ex, false));
      var d := SafeInvoke(this, listeners, HubHandler, occ, false);
      r := Run([Suppressed(sender, ex, d.run.steps)], listeners, d.run.escaped);
    }
  }

  /** SafeInvoke: the sequential mode, or the parallel one when asked. */
  method SafeInvoke(hub: LibraryEvents, eventHandler: seq<Handler>, eh: ExceptionHandler, occ: Occurrence,
                    parallel: bool) returns (r: Dispatch)
    modifies hub
    decreases Rank(eh), 4
    ensures r == DispatchOf(eventHandler, eh, occ, if parallel then InvokeParallel else Invoke, old(hub.listeners))
    ensures !r.Tasks?
    ensures r.Ran? ==> hub.listeners == r.run.listeners
  {
    r := InvokeEventHandlers(hub, eventHandler, eh, occ, if parallel then InvokeParallel else Invoke);
  }

  /** InvokeEventHandlers: snapshot the invocation list, then run it in the
      chosen mode. Only the sequential mode is modelled step by step. */
  method InvokeEventHandlers(hub: LibraryEvents, eventHandler: seq<Handler>, eh: ExceptionHandler,
                             occ: Occurrence, mode: InvokeMode) returns (r: Dispatch)
    modifies hub
    decreases Rank(eh), 3
    ensures r == DispatchOf(eventHandler, eh, occ, mode, old(hub.listeners))
    ensures r.Ran? ==> hub.listeners == r.run.listeners
    ensures eventHandler == [] ==> r == Ran(Run([], old(hub.listeners), None))
    ensures mode == InvokeAsync && eventHandler != [] ==> r == Tasks(eventHandler)
  {
    if eventHandler == [] {
      return Ran(Run([], hub.listeners, None));
    }
    // GetInvocationList under the event lock: delegates are immutable, so
    // the snapshot is the value passed in.
    var handlers := eventHandler;
    if mode == InvokeAsync {
      return Tasks(handlers);
    }
    if mode == InvokeParallel && |handlers| > 1 {
      return ForkJoin(handlers);
    }
    var run := InvokeSequentially(hub, handlers, eh, occ);
    r := Ran(run);
  }

  /** The `foreach` of the default mode: invoke the snapshot in order; an
      exception that escapes `invokeHandler` leaves the loop. */
  method InvokeSequentially(hub: LibraryEvents, handlers: seq<Handler>, eh: ExceptionHandler, occ: Occurrence)
    returns (r: Run)
    modifies hub
    decreases Rank(eh), 2
    ensures r == InvokeAll(handlers, eh, occ, old(hub.listeners))
    ensures hub.listeners == r.listeners
  {
    ghost var listeners0 := hub.listeners;
    var steps: seq<Step> := [];
    for i := 0 to |handlers|
      invariant InvokeAll(handlers, eh, occ, listeners0) == Then(steps, InvokeAll(handlers[i..], eh, occ, hub.listeners))
    {
      ghost var before := hub.listeners;
      var one := InvokeHandler(hub, handlers[i], eh, occ);
      InvokeAllStep(handlers[i..], eh, occ, before);
      assert handlers[i..][1..] == handlers[i + 1..];
      if one.escaped.Some? {
        return Run(steps + one.steps, hub.listeners, one.escaped);
      }
      ThenThen(steps, one.steps, InvokeAll(handlers[i + 1..], eh, occ, hub.listeners));
      steps := steps + one.steps;
    }
    r := Run(steps, hub.listeners, None);
  }

  /** The local function `invokeHandler`: run one handler inside its own
      try/catch and route what it throws. */
  method InvokeHandler(hub: LibraryEvents, h: Handler, eh: ExceptionHandler, occ: Occurrence) returns (r: Run)
    modifies hub
    decreases Rank(eh), 1
    ensures r == InvokeOne(h, eh, occ, old(hub.listeners))
    ensures hub.listeners == r.listeners
  {
    // the handler's body
    match h.effect {
      case Keep =>
      case Subscribe(x) => hub.Subscribe(x);
      case Unsubscribe(x) => hub.Unsubscribe(x);
    }
    var call := Invoked(h, occ.sender, occ.args);
    match h.outcome {
      case Ok =>
        r := Run([call], hub.listeners, None);
      case Throws(ex) =>
        match eh {
          case NoExceptionHandler =>
            var report := hub.OnSuppressedException(DispatcherSender, Wrap(occ.eventType, h, ex));
            r := Run([call] + report.steps, hub.listeners, report.escaped);
          case CallerHandler(answer) =>
            var result := answer(ex, h);
            r := Run([call, HandlerCalled(ex, h)], hub.listeners, if result.Throws? then Some(result.error) else None);
          case HubHandler =>
            // LibraryEvents' exceptionHandler: throw, never report again
            r := Run([call, HandlerCalled(ex, h)], hub.listeners, Some(ListenerFailure(h, ex)));
        }
    }
  }
}
