/** Values and reference semantics of resilient event dispatch
    (EventHandlerExtensions.cs) and of the suppressed-exception hub
    (LibraryEvents.cs).

    A handler (an entry of a multicast delegate's invocation list) is a value
    whose invocation first performs its `effect` on the hub's listener list
    and then returns normally or throws. A dispatch pass is described by a
    `Run`: the steps it took, the hub's listener list afterwards, and the
    exception that escaped the pass, if any. */
module EventModel {
  import opened Wrappers

  /** A .NET exception: its message and its inner exception. */
  datatype Exception = Exception(message: string, inner: Option<Exception>)

  /** How one invocation ends. */
  datatype Outcome = Ok | Throws(error: Exception)

  /** One delegate of an invocation list. `name` is what reflection resolves
      for its method (None when that fails); `id` stands for the delegate's
      target and method, the identity by which Delegate.Remove finds a
      registration. */
  datatype Handler = Handler(id: nat, name: Option<string>, outcome: Outcome, effect: Mutation)

  /** What a handler does to LibraryEvents.SuppressedException while it runs. */
  datatype Mutation = Keep | Subscribe(added: Handler) | Unsubscribe(removedId: nat)

  datatype EventArgs =
    | EventArgs(payload: string)
    | UnhandledExceptionEventArgs(exceptionObject: Exception, isTerminating: bool)

  /** One event occurrence: typeof(TEventHandler).FullName, the sender and the arguments. */
  datatype Occurrence = Occurrence(eventType: string, sender: string, args: EventArgs)

  /** The `exceptionHandler` argument of SafeInvoke: absent (faults go to the
      hub), supplied by the caller (it returns or throws, depending on the
      fault and the faulting handler it is given), or the hub's own handler,
      which always throws a wrapping exception. */
  datatype ExceptionHandler =
    | NoExceptionHandler
    | CallerHandler(answer: (Exception, Handler) -> Outcome)
    | HubHandler

  datatype InvokeMode = Invoke | InvokeParallel | InvokeAsync

  /** What a pass does, in order: a handler invoked, `exceptionHandler(ex,
      handler)` called, or a report to LibraryEvents.OnSuppressedException
      together with the steps of the hub's own pass it caused. */
  datatype Step =
    | Invoked(handler: Handler, sender: string, args: EventArgs)
    | HandlerCalled(error: Exception, handler: Handler)
    | Suppressed(sender: string, error: Exception, notified: seq<Step>)

  datatype Run = Run(steps: seq<Step>, listeners: seq<Handler>, escaped: Option<Exception>)

  /** What InvokeEventHandlers does with one snapshot: runs it on the calling
      thread, or hands it to the worker pool (one task per handler for
      InvokeAsync, Parallel.ForEach for InvokeParallel with several handlers). */
  datatype Dispatch = Ran(run: Run) | Tasks(work: seq<Handler>) | ForkJoin(work: seq<Handler>)

  const Undetermined: string := "<undetermined>"

  /** typeof(EventHandlerExtensions): the sender of every report the dispatcher makes. */
  const DispatcherSender: string := "Gemstone.EventHandlerExtensions.EventHandlerExtensions"

  /** A placeholder for typeof(EventHandler<UnhandledExceptionEventArgs>).FullName
      (an assembly-qualified name in .NET). It never appears in a message: the
      hub's pass always has its own handler. */
  const SuppressedExceptionEventType: string := "System.EventHandler`1[System.UnhandledExceptionEventArgs]"

  const SafeInvokePrefix: string := "SafeInvoke caught exception in "
  const HubFailurePrefix: string := "Failed in Gemstone.LibraryEvents.SuppressedException event handler \""

  /** GetHandlerName: the resolved method name, or the sentinel when
      resolution fails; it never throws. */
  function GetHandlerName(h: Handler): (name: string)
    ensures h.name.Some? ==> name == h.name.value
    ensures h.name.None? ==> name == Undetermined
  {
    match h.name
    case Some(n) => n
    case None => Undetermined
  }

  /** The exception SafeInvoke reports to the hub for a fault `ex` of `h`. */
  function Wrap(eventType: string, h: Handler, ex: Exception): (w: Exception)
    ensures w.inner == Some(ex)
    ensures var tail := "\": " + ex.message;
      && SafeInvokePrefix <= w.message
      && w.message == SafeInvokePrefix + eventType + " event handler \"" + GetHandlerName(h) + tail
  {
    Exception(SafeInvokePrefix + eventType + " event handler \"" + GetHandlerName(h) + "\": " + ex.message, Some(ex))
  }

  /** The exception the hub's handler throws for a fault `ex` of listener `h`. */
  function ListenerFailure(h: Handler, ex: Exception): (f: Exception)
    ensures f.inner == Some(ex)
    ensures HubFailurePrefix <= f.message
    ensures f.message == HubFailurePrefix + GetHandlerName(h) + "\": " + ex.message
  {
    Exception(HubFailurePrefix + GetHandlerName(h) + "\": " + ex.message, Some(ex))
  }

  /** Some entry of `list` is the delegate `id`. */
  predicate Registered(list: seq<Handler>, id: nat)
  {
    exists i | 0 <= i < |list| :: list[i].id == id
  }

  /** Index of the last registration of the delegate `id` in `list`. */
  function LastIndex(list: seq<Handler>, id: nat): (i: nat)
    requires Registered(list, id)
    ensures i < |list| && list[i].id == id && !Registered(list[i + 1..], id)
    decreases |list|
  {
    var n := |list| - 1;
    if list[n].id == id then
      assert list[n + 1..] == [];
      n
    else
      var prefix := list[..n];
      assert Registered(prefix, id) by {
        var j :| 0 <= j < |list| && list[j].id == id;
        assert prefix[j] == list[j];
      }
      var i := LastIndex(prefix, id);
      assert !Registered(list[i + 1..], id) by {
        var rest := list[i + 1..];
        assert rest == prefix[i + 1..] + [list[n]];
        forall j | 0 <= j < |rest|
          ensures rest[j].id != id
        {
          if j < |rest| - 1 {
            assert rest[j] == prefix[i + 1..][j];
          }
        }
      }
      i
  }

  /** Delegate.Remove (`-=`): takes out the last registration of the
      delegate `id`, and leaves the list alone when there is none. */
  function RemoveLast(list: seq<Handler>, id: nat): seq<Handler>
  {
    if Registered(list, id) then
      var i := LastIndex(list, id);
      list[..i] + list[i + 1..]
    else
      list
  }

  /** `-=` removes exactly one registration of the delegate `id` when there
      is one (the last, so none of it stays behind that point), keeps the
      others in order, and changes nothing otherwise. */
  lemma RemoveLastTakesOne(list: seq<Handler>, id: nat)
    ensures !Registered(list, id) ==> RemoveLast(list, id) == list
    ensures Registered(list, id) ==>
      var i := LastIndex(list, id);
      && multiset(RemoveLast(list, id)) == multiset(list) - multiset{list[i]}
      && |RemoveLast(list, id)| == |list| - 1
      && RemoveLast(list, id)[..i] == list[..i]
      && RemoveLast(list, id)[i..] == list[i + 1..]
      && !Registered(RemoveLast(list, id)[i..], id)
  {
    if Registered(list, id) {
      var i := LastIndex(list, id);
      var r := RemoveLast(list, id);
      assert r == list[..i] + list[i + 1..];
      assert r[..i] == list[..i];
      assert r[i..] == list[i + 1..];
      TakeOut(list, i);
    }
  }

  lemma TakeOut(list: seq<Handler>, i: nat)
    requires i < |list|
    ensures multiset(list[..i] + list[i + 1..]) == multiset(list) - multiset{list[i]}
  {
    assert list == list[..i] + [list[i]] + list[i + 1..];
  }

  /** The hub's listener list after a handler's effect. */
  function Apply(m: Mutation, listeners: seq<Handler>): seq<Handler>
  {
    match m
    case Keep => listeners
    case Subscribe(x) => listeners + [x]
    case Unsubscribe(x) => RemoveLast(listeners, x)
  }

  /** A pass with a missing exception handler may report to the hub; the
      hub's own pass never does. This rank bounds the nesting. */
  function Rank(eh: ExceptionHandler): nat
  {
    if eh.NoExceptionHandler? then 1 else 0
  }

  function Then(prefix: seq<Step>, r: Run): Run
  {
    Run(prefix + r.steps, r.listeners, r.escaped)
  }

  /** The local function `invokeHandler`: invoke one handler and route its fault. */
  function InvokeOne(h: Handler, eh: ExceptionHandler, occ: Occurrence, listeners: seq<Handler>): Run
    decreases Rank(eh), 1, 0
  {
    var after := Apply(h.effect, listeners);
    var call := Invoked(h, occ.sender, occ.args);
    match h.outcome
    case Ok => Run([call], after, None)
    case Throws(ex) =>
      match eh
      case NoExceptionHandler =>
        var report := Report(DispatcherSender, Wrap(occ.eventType, h, ex), after);
        Run([call] + report.steps, report.listeners, report.escaped)
      case CallerHandler(answer) =>
        var result := answer(ex, h);
        Run([call, HandlerCalled(ex, h)], after, if result.Throws? then Some(result.error) else None)
      case HubHandler =>
        Run([call, HandlerCalled(ex, h)], after, Some(ListenerFailure(h, ex)))
  }

  /** The sequential `foreach`: invoke the snapshot in order; an exception
      that escapes `invokeHandler` ends the pass. */
  function InvokeAll(pending: seq<Handler>, eh: ExceptionHandler, occ: Occurrence, listeners: seq<Handler>): Run
    decreases Rank(eh), 2, |pending|
  {
    if pending == [] then Run([], listeners, None)
    else
      var first := InvokeOne(pending[0], eh, occ, listeners);
      if first.escaped.Some? then first
      else Then(first.steps, InvokeAll(pending[1..], eh, occ, first.listeners))
  }

  /** One turn of the `foreach`: the first handler, then the rest unless something escaped. */
  lemma InvokeAllStep(pending: seq<Handler>, eh: ExceptionHandler, occ: Occurrence, listeners: seq<Handler>)
    requires pending != []
    ensures var first := InvokeOne(pending[0], eh, occ, listeners);
      InvokeAll(pending, eh, occ, listeners) ==
        if first.escaped.Some? then first else Then(first.steps, InvokeAll(pending[1..], eh, occ, first.listeners))
  {
  }

  lemma ThenThen(a: seq<Step>, b: seq<Step>, r: Run)
    ensures Then(a, Then(b, r)) == Then(a + b, r)
  {
    assert a + (b + r.steps) == (a + b) + r.steps;
  }

  /** LibraryEvents.OnSuppressedException: nothing when nobody listens;
      otherwise a sequential pass over the listeners with the hub's handler. */
  function Report(sender: string, ex: Exception, listeners: seq<Handler>): Run
    decreases 1, 0, 0
  {
    if listeners == [] then Run([Suppressed(sender, ex, [])], listeners, None)
    else
      var occ := Occurrence(SuppressedExceptionEventType, sender, UnhandledExceptionEventArgs(ex, false));
      var pass := InvokeAll(listeners, HubHandler, occ, listeners);
      Run([Suppressed(sender, ex, pass.steps)], pass.listeners, pass.escaped)
  }

  /** InvokeEventHandlers: a null event does nothing; otherwise the mode
      decides where the snapshot runs. */
  function DispatchOf(eventHandler: seq<Handler>, eh: ExceptionHandler, occ: Occurrence, mode: InvokeMode,
                      listeners: seq<Handler>): Dispatch
  {
    if eventHandler == [] then Ran(Run([], listeners, None))
    else if mode == InvokeAsync then Tasks(eventHandler)
    else if mode == InvokeParallel && |eventHandler| > 1 then ForkJoin(eventHandler)
    else Ran(InvokeAll(eventHandler, eh, occ, listeners))
  }

  // ---------------------------------------------------------------------
  // Views of a trace

  /** The handlers a pass invoked, in order (reports' inner passes excluded). */
  function Invocations(steps: seq<Step>): seq<Handler>
  {
    if steps == [] then []
    else (if steps[0].Invoked? then [steps[0].handler] else []) + Invocations(steps[1..])
  }

  /** The exceptions a pass reported to the hub, in order. */
  function SuppressedErrors(steps: seq<Step>): seq<Exception>
  {
    if steps == [] then []
    else (if steps[0].Suppressed? then [steps[0].error] else []) + SuppressedErrors(steps[1..])
  }

  /** The calls `exceptionHandler(ex, handler)` a pass made, in order. */
  function HandlerCalls(steps: seq<Step>): seq<(Exception, Handler)>
  {
    if steps == [] then []
    else (if steps[0].HandlerCalled? then [(steps[0].error, steps[0].handler)] else []) + HandlerCalls(steps[1..])
  }

  /** Every invocation of the pass received this sender and these arguments. */
  predicate DeliveredWith(steps: seq<Step>, sender: string, args: EventArgs)
  {
    forall i | 0 <= i < |steps| && steps[i].Invoked? :: steps[i].sender == sender && steps[i].args == args
  }

  /** How deeply reports nest inside a trace. */
  function Depth(steps: seq<Step>): nat
    decreases steps, 1
  {
    if steps == [] then 0
    else
      var d0 := StepDepth(steps[0]);
      var rest := Depth(steps[1..]);
      if d0 < rest then rest else d0
  }

  function StepDepth(s: Step): nat
    decreases s, 0
  {
    match s
    case Suppressed(_, _, notified) => 1 + Depth(notified)
    case _ => 0
  }

  // ---------------------------------------------------------------------
  // Reference descriptions of which handlers fault

  /** The reports the dispatcher owes for `pending` when it has no exception handler. */
  function WrappedFaults(eventType: string, pending: seq<Handler>): seq<Exception>
  {
    if pending == [] then []
    else
      (if pending[0].outcome.Throws? then [Wrap(eventType, pending[0], pending[0].outcome.error)] else [])
      + WrappedFaults(eventType, pending[1..])
  }

  /** The exception-handler calls the dispatcher owes for `pending`. */
  function FaultCalls(pending: seq<Handler>): seq<(Exception, Handler)>
  {
    if pending == [] then []
    else
      (if pending[0].outcome.Throws? then [(pending[0].outcome.error, pending[0])] else [])
      + FaultCalls(pending[1..])
  }

  /** Index of the first throwing handler, or |pending| when none throws. */
  function FirstFault(pending: seq<Handler>): (k: nat)
    ensures k <= |pending|
    ensures k < |pending| ==> pending[k].outcome.Throws?
    decreases |pending|
  {
    if pending == [] || pending[0].outcome.Throws? then 0 else 1 + FirstFault(pending[1..])
  }

  /** Every handler before the first throwing one returns normally. */
  lemma {:induction false} FirstFaultIsFirst(pending: seq<Handler>, j: nat)
    requires j < FirstFault(pending)
    ensures pending[j].outcome.Ok?
    decreases |pending|
  {
    if j > 0 {
      FirstFaultIsFirst(pending[1..], j - 1);
    }
  }

  /** The hub's listener list after the effects of `invoked`, in order. */
  function ApplyAll(invoked: seq<Handler>, listeners: seq<Handler>): seq<Handler>
    decreases |invoked|
  {
    if invoked == [] then listeners else ApplyAll(invoked[1..], Apply(invoked[0].effect, listeners))
  }

  /** What escapes when the exception handler `eh` (not absent) handles a fault of `h`. */
  function CustomEscape(eh: ExceptionHandler, h: Handler): Option<Exception>
    requires !eh.NoExceptionHandler? && h.outcome.Throws?
  {
    match eh
    case CallerHandler(answer) =>
      var result := answer(h.outcome.error, h);
      if result.Throws? then Some(result.error) else None
    case HubHandler => Some(ListenerFailure(h, h.outcome.error))
  }

  /** With exception handler `eh` supplied: the index of the first handler
      whose fault `eh` lets escape, or |pending| when every fault is absorbed. */
  function FirstEscape(eh: ExceptionHandler, pending: seq<Handler>): (k: nat)
    requires !eh.NoExceptionHandler?
    ensures k <= |pending|
    ensures k < |pending| ==> pending[k].outcome.Throws? && CustomEscape(eh, pending[k]).Some?
    decreases |pending|
  {
    if pending == [] then 0
    else if pending[0].outcome.Throws? && CustomEscape(eh, pending[0]).Some? then 0
    else 1 + FirstEscape(eh, pending[1..])
  }

  /** Every handler before that one returns normally or has its fault absorbed. */
  lemma {:induction false} FirstEscapeIsFirst(eh: ExceptionHandler, pending: seq<Handler>, j: nat)
    requires !eh.NoExceptionHandler? && j < FirstEscape(eh, pending)
    ensures pending[j].outcome.Ok? || CustomEscape(eh, pending[j]).None?
    decreases |pending|
  {
    if j > 0 {
      FirstEscapeIsFirst(eh, pending[1..], j - 1);
    }
  }

  /** The hub's handler lets every fault escape, so its pass stops at the first fault. */
  lemma {:induction false} HubEscapesAtFirstFault(pending: seq<Handler>)
    ensures FirstEscape(HubHandler, pending) == FirstFault(pending)
    decreases |pending|
  {
    if pending != [] && pending[0].outcome.Ok? {
      HubEscapesAtFirstFault(pending[1..]);
    }
  }
}
