/** What the dispatcher and the hub promise, proved about the reference
    description in EventModel (and so, through their postconditions, about
    the methods of Dispatch). */
module EventProperties {
  import opened Wrappers
  import opened EventModel

  lemma {:induction false} InvocationsAppend(a: seq<Step>, b: seq<Step>)
    ensures Invocations(a + b) == Invocations(a) + Invocations(b)
    decreases |a|
  {
    if a == [] {
      assert a + b == b;
    } else {
      assert (a + b)[0] == a[0];
      assert (a + b)[1..] == a[1..] + b;
      InvocationsAppend(a[1..], b);
    }
  }

  lemma {:induction false} SuppressedErrorsAppend(a: seq<Step>, b: seq<Step>)
    ensures SuppressedErrors(a + b) == SuppressedErrors(a) + SuppressedErrors(b)
    decreases |a|
  {
    if a == [] {
      assert a + b == b;
    } else {
      assert (a + b)[0] == a[0];
      assert (a + b)[1..] == a[1..] + b;
      SuppressedErrorsAppend(a[1..], b);
    }
  }

  lemma {:induction false} HandlerCallsAppend(a: seq<Step>, b: seq<Step>)
    ensures HandlerCalls(a + b) == HandlerCalls(a) + HandlerCalls(b)
    decreases |a|
  {
    if a == [] {
      assert a + b == b;
    } else {
      assert (a + b)[0] == a[0];
      assert (a + b)[1..] == a[1..] + b;
      HandlerCallsAppend(a[1..], b);
    }
  }

  lemma {:induction false} DepthAppend(a: seq<Step>, b: seq<Step>)
    ensures Depth(a + b) == if Depth(a) < Depth(b) then Depth(b) else Depth(a)
    decreases |a|
  {
    if a == [] {
      assert a + b == b;
    } else {
      assert (a + b)[0] == a[0];
      assert (a + b)[1..] == a[1..] + b;
      DepthAppend(a[1..], b);
    }
  }

  /** The trace views distribute over concatenation. */
  lemma ViewsAppend(a: seq<Step>, b: seq<Step>)
    ensures Invocations(a + b) == Invocations(a) + Invocations(b)
    ensures SuppressedErrors(a + b) == SuppressedErrors(a) + SuppressedErrors(b)
    ensures HandlerCalls(a + b) == HandlerCalls(a) + HandlerCalls(b)
    ensures Depth(a + b) == if Depth(a) < Depth(b) then Depth(b) else Depth(a)
  {
    InvocationsAppend(a, b);
    SuppressedErrorsAppend(a, b);
    HandlerCallsAppend(a, b);
    DepthAppend(a, b);
  }

  /** Every invocation in `a + b` sees the occurrence iff every one in `a` and in `b` does. */
  lemma DeliveredWithAppend(a: seq<Step>, b: seq<Step>, sender: string, args: EventArgs)
    requires DeliveredWith(a, sender, args) && DeliveredWith(b, sender, args)
    ensures DeliveredWith(a + b, sender, args)
  {
    forall i | 0 <= i < |a + b| && (a + b)[i].Invoked?
      ensures (a + b)[i].sender == sender && (a + b)[i].args == args
    {
      if i >= |a| {
        assert (a + b)[i] == b[i - |a|];
      }
    }
  }

  lemma SingletonViews(s: Step)
    ensures Invocations([s]) == (if s.Invoked? then [s.handler] else [])
    ensures SuppressedErrors([s]) == (if s.Suppressed? then [s.error] else [])
    ensures HandlerCalls([s]) == (if s.HandlerCalled? then [(s.error, s.handler)] else [])
    ensures Depth([s]) == StepDepth(s)
  {
    assert [s][1..] == [];
  }

  /** The trace of one `invokeHandler` call: the invocation, then the routing
      of its fault, if any. */
  lemma InvokeOneShape(h: Handler, eh: ExceptionHandler, occ: Occurrence, listeners: seq<Handler>)
    ensures var r := InvokeOne(h, eh, occ, listeners);
      && |r.steps| == (if h.outcome.Ok? then 1 else 2)
      && r.steps[0] == Invoked(h, occ.sender, occ.args)
      && (h.outcome.Throws? && eh.NoExceptionHandler? ==>
            r.steps[1].Suppressed? && r.steps[1].error == Wrap(occ.eventType, h, h.outcome.error))
      && (h.outcome.Throws? && !eh.NoExceptionHandler? ==> r.steps[1] == HandlerCalled(h.outcome.error, h))
  {
    if h.outcome.Throws? && eh.NoExceptionHandler? {
      var report := Report(DispatcherSender, Wrap(occ.eventType, h, h.outcome.error), Apply(h.effect, listeners));
      assert |report.steps| == 1;
    }
  }

  /** A one-call trace as its first step and the rest. */
  lemma InvokeOneSplit(h: Handler, eh: ExceptionHandler, occ: Occurrence, listeners: seq<Handler>)
    ensures var r := InvokeOne(h, eh, occ, listeners);
      r.steps == [Invoked(h, occ.sender, occ.args)] + r.steps[1..]
      && Invocations(r.steps[1..]) == []
      && SuppressedErrors(r.steps[1..]) ==
           (if h.outcome.Throws? && eh.NoExceptionHandler? then [Wrap(occ.eventType, h, h.outcome.error)] else [])
      && HandlerCalls(r.steps[1..]) ==
           (if h.outcome.Throws? && !eh.NoExceptionHandler? then [(h.outcome.error, h)] else [])
  {
    var r := InvokeOne(h, eh, occ, listeners);
    InvokeOneShape(h, eh, occ, listeners);
    var tail := r.steps[1..];
    if h.outcome.Throws? {
      assert tail == [r.steps[1]];
      SingletonViews(r.steps[1]);
    }
  }

  lemma InvokeOneInvokesOnce(h: Handler, eh: ExceptionHandler, occ: Occurrence, listeners: seq<Handler>)
    ensures var r := InvokeOne(h, eh, occ, listeners);
      Invocations(r.steps) == [h] && (r.escaped.Some? ==> h.outcome.Throws?)
  {
    var r := InvokeOne(h, eh, occ, listeners);
    var call := Invoked(h, occ.sender, occ.args);
    InvokeOneSplit(h, eh, occ, listeners);
    SingletonViews(call);
    InvocationsAppend([call], r.steps[1..]);
  }

  /** A fault goes to exactly one place: the hub when there is no exception
      handler, the exception handler otherwise. */
  lemma InvokeOneRoutes(h: Handler, eh: ExceptionHandler, occ: Occurrence, listeners: seq<Handler>)
    ensures var r := InvokeOne(h, eh, occ, listeners);
      && SuppressedErrors(r.steps) ==
           (if h.outcome.Throws? && eh.NoExceptionHandler? then [Wrap(occ.eventType, h, h.outcome.error)] else [])
      && HandlerCalls(r.steps) ==
           (if h.outcome.Throws? && !eh.NoExceptionHandler? then [(h.outcome.error, h)] else [])
  {
    var r := InvokeOne(h, eh, occ, listeners);
    var call := Invoked(h, occ.sender, occ.args);
    InvokeOneSplit(h, eh, occ, listeners);
    SingletonViews(call);
    SuppressedErrorsAppend([call], r.steps[1..]);
    HandlerCallsAppend([call], r.steps[1..]);
  }

  lemma InvokeOneDelivers(h: Handler, eh: ExceptionHandler, occ: Occurrence, listeners: seq<Handler>)
    ensures DeliveredWith(InvokeOne(h, eh, occ, listeners).steps, occ.sender, occ.args)
  {
    InvokeOneShape(h, eh, occ, listeners);
  }

  /** With an exception handler: the list is the one the handler's effect
      leaves, nothing nests, and what escapes is what the exception handler throws. */
  lemma InvokeOneCustom(h: Handler, eh: ExceptionHandler, occ: Occurrence, listeners: seq<Handler>)
    requires !eh.NoExceptionHandler?
    ensures var r := InvokeOne(h, eh, occ, listeners);
      && r.listeners == Apply(h.effect, listeners)
      && Depth(r.steps) == 0
      && r.escaped == (if h.outcome.Throws? then CustomEscape(eh, h) else None)
  {
    var r := InvokeOne(h, eh, occ, listeners);
    InvokeOneShape(h, eh, occ, listeners);
    if h.outcome.Throws? {
      assert r.steps == [r.steps[0]] + [r.steps[1]];
      SingletonViews(r.steps[0]);
      SingletonViews(r.steps[1]);
      DepthAppend([r.steps[0]], [r.steps[1]]);
    } else {
      assert r.steps == [r.steps[0]];
      SingletonViews(r.steps[0]);
    }
  }

  /** One call of `invokeHandler`: the handler itself is invoked once, with
      the occurrence, and its fault goes to exactly one place. */
  lemma InvokeOneViews(h: Handler, eh: ExceptionHandler, occ: Occurrence, listeners: seq<Handler>)
    ensures var r := InvokeOne(h, eh, occ, listeners);
      && Invocations(r.steps) == [h]
      && SuppressedErrors(r.steps) ==
           (if h.outcome.Throws? && eh.NoExceptionHandler? then [Wrap(occ.eventType, h, h.outcome.error)] else [])
      && HandlerCalls(r.steps) ==
           (if h.outcome.Throws? && !eh.NoExceptionHandler? then [(h.outcome.error, h)] else [])
      && DeliveredWith(r.steps, occ.sender, occ.args)
      && (!eh.NoExceptionHandler? ==> r.listeners == Apply(h.effect, listeners) && Depth(r.steps) == 0)
      && (r.escaped.Some? ==> h.outcome.Throws?)
  {
    InvokeOneInvokesOnce(h, eh, occ, listeners);
    InvokeOneRoutes(h, eh, occ, listeners);
    InvokeOneDelivers(h, eh, occ, listeners);
    if !eh.NoExceptionHandler? {
      InvokeOneCustom(h, eh, occ, listeners);
    }
  }

  /** With an exception handler supplied, a pass reports nothing to the hub
      and its trace holds no nested pass. */
  lemma {:induction false} CustomPassIsFlat(pending: seq<Handler>, eh: ExceptionHandler, occ: Occurrence,
                                            listeners: seq<Handler>)
    requires !eh.NoExceptionHandler?
    ensures Depth(InvokeAll(pending, eh, occ, listeners).steps) == 0
    decreases |pending|
  {
    if pending != [] {
      var first := InvokeOne(pending[0], eh, occ, listeners);
      InvokeAllStep(pending, eh, occ, listeners);
      InvokeOneCustom(pending[0], eh, occ, listeners);
      if first.escaped.None? {
        CustomPassIsFlat(pending[1..], eh, occ, first.listeners);
        ViewsAppend(first.steps, InvokeAll(pending[1..], eh, occ, first.listeners).steps);
      }
    }
  }

  /** Bounded recursion: a pass without an exception handler nests reports
      at most one level deep, because the hub's own pass never reports. */
  lemma {:induction false} PassDepthBounded(pending: seq<Handler>, eh: ExceptionHandler, occ: Occurrence,
                                            listeners: seq<Handler>)
    ensures Depth(InvokeAll(pending, eh, occ, listeners).steps) <= Rank(eh)
    decreases |pending|
  {
    if !eh.NoExceptionHandler? {
      CustomPassIsFlat(pending, eh, occ, listeners);
    } else if pending != [] {
      var h := pending[0];
      var first := InvokeOne(h, eh, occ, listeners);
      InvokeAllStep(pending, eh, occ, listeners);
      if h.outcome.Throws? {
        var after := Apply(h.effect, listeners);
        var wrapped := Wrap(occ.eventType, h, h.outcome.error);
        if after != [] {
          var hubOcc := Occurrence(SuppressedExceptionEventType, DispatcherSender, UnhandledExceptionEventArgs(wrapped, false));
          CustomPassIsFlat(after, HubHandler, hubOcc, after);
        }
        var report := Report(DispatcherSender, wrapped, after);
        assert Depth(report.steps[0].notified) == 0;
        assert report.steps == [report.steps[0]];
        ViewsAppend([Invoked(h, occ.sender, occ.args)], report.steps);
      }
      assert Depth(first.steps) <= 1;
      if first.escaped.None? {
        PassDepthBounded(pending[1..], eh, occ, first.listeners);
        ViewsAppend(first.steps, InvokeAll(pending[1..], eh, occ, first.listeners).steps);
      }
    }
  }

  lemma {:induction false} CompletedPassInvocations(pending: seq<Handler>, eh: ExceptionHandler,
                                                    occ: Occurrence, listeners: seq<Handler>)
    requires InvokeAll(pending, eh, occ, listeners).escaped.None?
    ensures Invocations(InvokeAll(pending, eh, occ, listeners).steps) == pending
    decreases |pending|
  {
    if pending != [] {
      var h := pending[0];
      var first := InvokeOne(h, eh, occ, listeners);
      InvokeAllStep(pending, eh, occ, listeners);
      var rest := InvokeAll(pending[1..], eh, occ, first.listeners);
      assert InvokeAll(pending, eh, occ, listeners).steps == first.steps + rest.steps;
      InvokeOneInvokesOnce(h, eh, occ, listeners);
      CompletedPassInvocations(pending[1..], eh, occ, first.listeners);
      InvocationsAppend(first.steps, rest.steps);
      ConsSplit(pending);
    }
  }

  lemma {:induction false} PassDeliversOccurrence(pending: seq<Handler>, eh: ExceptionHandler,
                                                  occ: Occurrence, listeners: seq<Handler>)
    ensures DeliveredWith(InvokeAll(pending, eh, occ, listeners).steps, occ.sender, occ.args)
    decreases |pending|
  {
    if pending != [] {
      var h := pending[0];
      var first := InvokeOne(h, eh, occ, listeners);
      InvokeAllStep(pending, eh, occ, listeners);
      InvokeOneDelivers(h, eh, occ, listeners);
      if first.escaped.None? {
        var rest := InvokeAll(pending[1..], eh, occ, first.listeners);
        assert InvokeAll(pending, eh, occ, listeners).steps == first.steps + rest.steps;
        PassDeliversOccurrence(pending[1..], eh, occ, first.listeners);
        DeliveredWithAppend(first.steps, rest.steps, occ.sender, occ.args);
      }
    }
  }

  lemma {:induction false} CompletedPassRoutesToHub(pending: seq<Handler>, occ: Occurrence, listeners: seq<Handler>)
    requires InvokeAll(pending, NoExceptionHandler, occ, listeners).escaped.None?
    ensures var r := InvokeAll(pending, NoExceptionHandler, occ, listeners);
      SuppressedErrors(r.steps) == WrappedFaults(occ.eventType, pending) && HandlerCalls(r.steps) == []
    decreases |pending|
  {
    if pending != [] {
      var h := pending[0];
      var first := InvokeOne(h, NoExceptionHandler, occ, listeners);
      InvokeAllStep(pending, NoExceptionHandler, occ, listeners);
      var rest := InvokeAll(pending[1..], NoExceptionHandler, occ, first.listeners);
      assert InvokeAll(pending, NoExceptionHandler, occ, listeners).steps == first.steps + rest.steps;
      InvokeOneRoutes(h, NoExceptionHandler, occ, listeners);
      CompletedPassRoutesToHub(pending[1..], occ, first.listeners);
      SuppressedErrorsAppend(first.steps, rest.steps);
      HandlerCallsAppend(first.steps, rest.steps);
    }
  }

  lemma {:induction false} CompletedPassRoutesToHandler(pending: seq<Handler>, eh: ExceptionHandler,
                                                        occ: Occurrence, listeners: seq<Handler>)
    requires !eh.NoExceptionHandler?
    requires InvokeAll(pending, eh, occ, listeners).escaped.None?
    ensures var r := InvokeAll(pending, eh, occ, listeners);
      SuppressedErrors(r.steps) == [] && HandlerCalls(r.steps) == FaultCalls(pending)
    decreases |pending|
  {
    if pending != [] {
      var h := pending[0];
      var first := InvokeOne(h, eh, occ, listeners);
      InvokeAllStep(pending, eh, occ, listeners);
      var rest := InvokeAll(pending[1..], eh, occ, first.listeners);
      assert InvokeAll(pending, eh, occ, listeners).steps == first.steps + rest.steps;
      InvokeOneRoutes(h, eh, occ, listeners);
      CompletedPassRoutesToHandler(pending[1..], eh, occ, first.listeners);
      SuppressedErrorsAppend(first.steps, rest.steps);
      HandlerCallsAppend(first.steps, rest.steps);
    }
  }

  /** A pass from which nothing escapes invokes every snapshot handler exactly
      once, in snapshot order, including those after a throwing one, and routes
      every fault exactly once: to the hub when there is no exception handler,
      to the exception handler otherwise. */
  lemma CompletedPassInvokesEveryHandler(pending: seq<Handler>, eh: ExceptionHandler,
                                         occ: Occurrence, listeners: seq<Handler>)
    requires InvokeAll(pending, eh, occ, listeners).escaped.None?
    ensures var r := InvokeAll(pending, eh, occ, listeners);
      && Invocations(r.steps) == pending
      && DeliveredWith(r.steps, occ.sender, occ.args)
      && (eh.NoExceptionHandler? ==>
            SuppressedErrors(r.steps) == WrappedFaults(occ.eventType, pending) && HandlerCalls(r.steps) == [])
      && (!eh.NoExceptionHandler? ==>
            SuppressedErrors(r.steps) == [] && HandlerCalls(r.steps) == FaultCalls(pending))
  {
    CompletedPassInvocations(pending, eh, occ, listeners);
    PassDeliversOccurrence(pending, eh, occ, listeners);
    if eh.NoExceptionHandler? {
      CompletedPassRoutesToHub(pending, occ, listeners);
    } else {
      CompletedPassRoutesToHandler(pending, eh, occ, listeners);
    }
  }

  /** When an exception escapes a pass, the handlers invoked are a non-empty
      prefix of the snapshot ending with a throwing handler: none after it
      runs. */
  lemma {:induction false} EscapedPassStopsAtFault(pending: seq<Handler>, eh: ExceptionHandler,
                                                   occ: Occurrence, listeners: seq<Handler>)
    requires InvokeAll(pending, eh, occ, listeners).escaped.Some?
    ensures var inv := Invocations(InvokeAll(pending, eh, occ, listeners).steps);
      && 0 < |inv| <= |pending|
      && inv == pending[..|inv|]
      && inv[|inv| - 1].outcome.Throws?
    decreases |pending|, 1
  {
    var h := pending[0];
    var first := InvokeOne(h, eh, occ, listeners);
    InvokeAllStep(pending, eh, occ, listeners);
    InvokeOneInvokesOnce(h, eh, occ, listeners);
    if first.escaped.None? {
      EscapedLaterInPass(pending, eh, occ, listeners);
    } else {
      assert InvokeAll(pending, eh, occ, listeners) == first;
      assert pending[..1] == [h];
    }
  }

  /** The step of EscapedPassStopsAtFault where the first handler lets the pass go on. */
  lemma {:induction false} EscapedLaterInPass(pending: seq<Handler>, eh: ExceptionHandler,
                                              occ: Occurrence, listeners: seq<Handler>)
    requires pending != [] && InvokeOne(pending[0], eh, occ, listeners).escaped.None?
    requires InvokeAll(pending, eh, occ, listeners).escaped.Some?
    ensures var inv := Invocations(InvokeAll(pending, eh, occ, listeners).steps);
      && 0 < |inv| <= |pending|
      && inv == pending[..|inv|]
      && inv[|inv| - 1].outcome.Throws?
    decreases |pending|, 0
  {
    var h := pending[0];
    var first := InvokeOne(h, eh, occ, listeners);
    InvokeAllStep(pending, eh, occ, listeners);
    InvokeOneInvokesOnce(h, eh, occ, listeners);
    var rest := InvokeAll(pending[1..], eh, occ, first.listeners);
    assert InvokeAll(pending, eh, occ, listeners) == Then(first.steps, rest);
    EscapedPassStopsAtFault(pending[1..], eh, occ, first.listeners);
    PrependInvocation(h, pending[1..], first.steps, rest.steps);
    ConsSplit(pending);
  }

  lemma PrependInvocation(h: Handler, tail: seq<Handler>, a: seq<Step>, b: seq<Step>)
    requires Invocations(a) == [h]
    requires var inv := Invocations(b); 0 < |inv| <= |tail| && inv == tail[..|inv|] && inv[|inv| - 1].outcome.Throws?
    ensures var inv := Invocations(a + b);
      && 0 < |inv| <= |[h] + tail|
      && inv == ([h] + tail)[..|inv|]
      && inv[|inv| - 1].outcome.Throws?
  {
    InvocationsAppend(a, b);
    var inv := Invocations(b);
    assert ([h] + tail)[..|inv| + 1] == [h] + tail[..|inv|];
  }

  /** With exception handler `eh` supplied: whether some fault's handling throws. */
  predicate Stops(eh: ExceptionHandler, pending: seq<Handler>)
    requires !eh.NoExceptionHandler?
  {
    FirstEscape(eh, pending) < |pending|
  }

  /** With exception handler `eh` supplied: the handlers a pass invokes, the
      whole snapshot or its prefix up to the fault whose handling throws. */
  function CustomInvoked(eh: ExceptionHandler, pending: seq<Handler>): seq<Handler>
    requires !eh.NoExceptionHandler?
  {
    if Stops(eh, pending) then pending[..FirstEscape(eh, pending) + 1] else pending
  }

  /** Passing a handler whose handling does not throw moves the stop point by one. */
  lemma CustomInvokedStep(eh: ExceptionHandler, pending: seq<Handler>)
    requires !eh.NoExceptionHandler? && pending != []
    requires pending[0].outcome.Ok? || CustomEscape(eh, pending[0]).None?
    ensures Stops(eh, pending) == Stops(eh, pending[1..])
    ensures CustomInvoked(eh, pending) == [pending[0]] + CustomInvoked(eh, pending[1..])
    ensures Stops(eh, pending) ==>
              CustomEscape(eh, pending[FirstEscape(eh, pending)]) ==
              CustomEscape(eh, pending[1..][FirstEscape(eh, pending[1..])])
  {
    var tail := pending[1..];
    var k := FirstEscape(eh, pending);
    assert k == 1 + FirstEscape(eh, tail);
    if k < |pending| {
      assert pending[k] == tail[k - 1];
      ConsPrefix(pending, k);
    } else {
      assert pending == [pending[0]] + tail;
    }
  }

  lemma {:induction false} CustomPassInvokes(pending: seq<Handler>, eh: ExceptionHandler,
                                             occ: Occurrence, listeners: seq<Handler>)
    requires !eh.NoExceptionHandler?
    ensures var r := InvokeAll(pending, eh, occ, listeners);
      && Invocations(r.steps) == CustomInvoked(eh, pending)
      && r.escaped == (if Stops(eh, pending) then CustomEscape(eh, pending[FirstEscape(eh, pending)]) else None)
    decreases |pending|
  {
    if pending != [] {
      var h := pending[0];
      var first := InvokeOne(h, eh, occ, listeners);
      InvokeAllStep(pending, eh, occ, listeners);
      InvokeOneInvokesOnce(h, eh, occ, listeners);
      InvokeOneCustom(h, eh, occ, listeners);
      if first.escaped.None? {
        var rest := InvokeAll(pending[1..], eh, occ, first.listeners);
        assert InvokeAll(pending, eh, occ, listeners) == Then(first.steps, rest);
        CustomPassInvokes(pending[1..], eh, occ, first.listeners);
        InvocationsAppend(first.steps, rest.steps);
        CustomInvokedStep(eh, pending);
      } else {
        assert pending[..1] == [h];
      }
    }
  }

  lemma {:induction false} CustomPassCalls(pending: seq<Handler>, eh: ExceptionHandler,
                                           occ: Occurrence, listeners: seq<Handler>)
    requires !eh.NoExceptionHandler?
    ensures var r := InvokeAll(pending, eh, occ, listeners);
      SuppressedErrors(r.steps) == [] && HandlerCalls(r.steps) == FaultCalls(CustomInvoked(eh, pending))
    decreases |pending|
  {
    if pending != [] {
      var h := pending[0];
      var first := InvokeOne(h, eh, occ, listeners);
      InvokeAllStep(pending, eh, occ, listeners);
      InvokeOneRoutes(h, eh, occ, listeners);
      InvokeOneCustom(h, eh, occ, listeners);
      assert [h][1..] == [];
      if first.escaped.None? {
        var rest := InvokeAll(pending[1..], eh, occ, first.listeners);
        assert InvokeAll(pending, eh, occ, listeners).steps == first.steps + rest.steps;
        CustomPassCalls(pending[1..], eh, occ, first.listeners);
        SuppressedErrorsAppend(first.steps, rest.steps);
        HandlerCallsAppend(first.steps, rest.steps);
        CustomInvokedStep(eh, pending);
        assert ([h] + CustomInvoked(eh, pending[1..]))[1..] == CustomInvoked(eh, pending[1..]);
      } else {
        assert pending[..1] == [h];
      }
    }
  }

  lemma {:induction false} CustomPassListeners(pending: seq<Handler>, eh: ExceptionHandler,
                                               occ: Occurrence, listeners: seq<Handler>)
    requires !eh.NoExceptionHandler?
    ensures InvokeAll(pending, eh, occ, listeners).listeners == ApplyAll(CustomInvoked(eh, pending), listeners)
    decreases |pending|
  {
    if pending != [] {
      var h := pending[0];
      var first := InvokeOne(h, eh, occ, listeners);
      InvokeAllStep(pending, eh, occ, listeners);
      InvokeOneCustom(h, eh, occ, listeners);
      if first.escaped.None? {
        CustomPassListeners(pending[1..], eh, occ, first.listeners);
        CustomInvokedStep(eh, pending);
        assert ([h] + CustomInvoked(eh, pending[1..]))[1..] == CustomInvoked(eh, pending[1..]);
      } else {
        assert pending[..1] == [h];
        assert [h][1..] == [];
      }
    }
  }

  /** With an exception handler supplied, the pass stops exactly at the first
      fault whose handling throws (every earlier fault was absorbed, see
      FirstEscapeIsFirst), that exception (and no other) escapes,
      `exceptionHandler` is called once per fault met, nothing is reported to
      the hub, and the hub's list changes only by the effects of the handlers
      invoked. */
  lemma CustomHandlerStopsAtFirstEscape(pending: seq<Handler>, eh: ExceptionHandler,
                                        occ: Occurrence, listeners: seq<Handler>)
    requires !eh.NoExceptionHandler?
    ensures var r := InvokeAll(pending, eh, occ, listeners);
      var k := FirstEscape(eh, pending);
      var stop := k < |pending|;
      var invoked := if stop then pending[..k + 1] else pending;
      && Invocations(r.steps) == invoked
      && r.escaped == (if stop then CustomEscape(eh, pending[k]) else None)
      && SuppressedErrors(r.steps) == []
      && HandlerCalls(r.steps) == FaultCalls(invoked)
      && DeliveredWith(r.steps, occ.sender, occ.args)
      && r.listeners == ApplyAll(invoked, listeners)
  {
    CustomPassInvokes(pending, eh, occ, listeners);
    CustomPassCalls(pending, eh, occ, listeners);
    CustomPassListeners(pending, eh, occ, listeners);
    PassDeliversOccurrence(pending, eh, occ, listeners);
  }

  /** OnSuppressedException with one snapshot of listeners: one report step;
      every listener up to and including the first faulting one, and none
      after it, is notified in list order with UnhandledExceptionEventArgs(ex,
      false) from `sender`; the nested pass never reports again; a listener
      fault escapes as the hub's wrapping exception; changes the listeners make
      to the list apply to later reports only. */
  lemma ReportIsolation(sender: string, ex: Exception, listeners: seq<Handler>)
    ensures var r := Report(sender, ex, listeners);
      && |r.steps| == 1 && r.steps[0].Suppressed?
      && SuppressedErrors(r.steps) == [ex] && Invocations(r.steps) == []
      && (listeners == [] ==> r == Run([Suppressed(sender, ex, [])], [], None))
      && var notified := r.steps[0].notified;
         var j := FirstFault(listeners);
         var invoked := if j < |listeners| then listeners[..j + 1] else listeners;
         && Invocations(notified) == invoked
         && DeliveredWith(notified, sender, UnhandledExceptionEventArgs(ex, false))
         && SuppressedErrors(notified) == [] && Depth(notified) == 0
         && HandlerCalls(notified) == FaultCalls(invoked)
         && r.escaped == (if j < |listeners| then Some(ListenerFailure(listeners[j], listeners[j].outcome.error)) else None)
         && r.listeners == ApplyAll(invoked, listeners)
  {
    var r := Report(sender, ex, listeners);
    if listeners != [] {
      var occ := Occurrence(SuppressedExceptionEventType, sender, UnhandledExceptionEventArgs(ex, false));
      CustomHandlerStopsAtFirstEscape(listeners, HubHandler, occ, listeners);
      HubEscapesAtFirstFault(listeners);
      CustomPassIsFlat(listeners, HubHandler, occ, listeners);
    }
    assert r.steps[1..] == [];
  }

  /** What escapes a pass with no exception handler is always the hub's
      "Failed in Gemstone.LibraryEvents.SuppressedException ..." exception
      wrapping a listener's fault: a subscriber fault itself never escapes. */
  lemma {:induction false} NoHandlerEscapeIsListenerFailure(pending: seq<Handler>, occ: Occurrence,
                                                            listeners: seq<Handler>)
    requires InvokeAll(pending, NoExceptionHandler, occ, listeners).escaped.Some?
    ensures var e := InvokeAll(pending, NoExceptionHandler, occ, listeners).escaped.value;
      HubFailurePrefix <= e.message && e.inner.Some?
    decreases |pending|
  {
    var h := pending[0];
    var first := InvokeOne(h, NoExceptionHandler, occ, listeners);
    InvokeAllStep(pending, NoExceptionHandler, occ, listeners);
    if first.escaped.None? {
      NoHandlerEscapeIsListenerFailure(pending[1..], occ, first.listeners);
    } else {
      ReportIsolation(DispatcherSender, Wrap(occ.eventType, h, h.outcome.error), Apply(h.effect, listeners));
    }
  }

  /** The first faulting subscriber is the last invoked, and the hub's
      failure for the first faulting listener is what escapes. */
  lemma {:induction false} FaultingListenerStops(pending: seq<Handler>, occ: Occurrence, listeners: seq<Handler>)
    requires forall i | 0 <= i < |pending| :: pending[i].effect == Keep
    requires FirstFault(pending) < |pending|
    requires FirstFault(listeners) < |listeners|
    ensures var r := InvokeAll(pending, NoExceptionHandler, occ, listeners);
      var k := FirstFault(pending);
      var j := FirstFault(listeners);
      && Invocations(r.steps) == pending[..k + 1]
      && r.escaped == Some(ListenerFailure(listeners[j], listeners[j].outcome.error))
    decreases |pending|, 1
  {
    var h := pending[0];
    if h.outcome.Ok? {
      FaultingListenerPasses(pending, occ, listeners);
    } else {
      var first := InvokeOne(h, NoExceptionHandler, occ, listeners);
      InvokeAllStep(pending, NoExceptionHandler, occ, listeners);
      InvokeOneInvokesOnce(h, NoExceptionHandler, occ, listeners);
      ReportEscapes(DispatcherSender, Wrap(occ.eventType, h, h.outcome.error), listeners);
      assert pending[..1] == [h];
    }
  }

  /** The step of FaultingListenerStops past a subscriber that returns normally. */
  lemma {:induction false} FaultingListenerPasses(pending: seq<Handler>, occ: Occurrence, listeners: seq<Handler>)
    requires forall i | 0 <= i < |pending| :: pending[i].effect == Keep
    requires FirstFault(pending) < |pending| && pending[0].outcome.Ok?
    requires FirstFault(listeners) < |listeners|
    ensures var r := InvokeAll(pending, NoExceptionHandler, occ, listeners);
      var k := FirstFault(pending);
      var j := FirstFault(listeners);
      && Invocations(r.steps) == pending[..k + 1]
      && r.escaped == Some(ListenerFailure(listeners[j], listeners[j].outcome.error))
    decreases |pending|, 0
  {
    var h := pending[0];
    var tail := pending[1..];
    var call := Invoked(h, occ.sender, occ.args);
    var first := InvokeOne(h, NoExceptionHandler, occ, listeners);
    assert h.effect == Keep;
    assert first == Run([call], listeners, None);
    InvokeAllStep(pending, NoExceptionHandler, occ, listeners);
    var rest := InvokeAll(tail, NoExceptionHandler, occ, listeners);
    assert InvokeAll(pending, NoExceptionHandler, occ, listeners) == Then([call], rest);
    var k := FirstFault(pending);
    assert k == 1 + FirstFault(tail);
    assert forall i | 0 <= i < |tail| :: tail[i] == pending[i + 1];
    FaultingListenerStops(tail, occ, listeners);
    SingletonViews(call);
    InvocationsAppend([call], rest.steps);
    ConsPrefix(pending, k);
  }

  lemma ConsSplit(s: seq<Handler>)
    requires s != []
    ensures [s[0]] + s[1..] == s
  {
  }

  /** A prefix of a non-empty sequence is its head followed by a prefix of its tail. */
  lemma ConsPrefix(s: seq<Handler>, k: nat)
    requires k < |s|
    ensures s[..k + 1] == [s[0]] + s[1..][..k]
  {
  }

  /** Exactly one report is made, for the first faulting subscriber. */
  lemma {:induction false} FaultingListenerReportsOnce(pending: seq<Handler>, occ: Occurrence, listeners: seq<Handler>)
    requires forall i | 0 <= i < |pending| :: pending[i].effect == Keep
    requires FirstFault(pending) < |pending|
    requires FirstFault(listeners) < |listeners|
    ensures var r := InvokeAll(pending, NoExceptionHandler, occ, listeners);
      var k := FirstFault(pending);
      SuppressedErrors(r.steps) == [Wrap(occ.eventType, pending[k], pending[k].outcome.error)]
    decreases |pending|
  {
    var h := pending[0];
    var first := InvokeOne(h, NoExceptionHandler, occ, listeners);
    InvokeAllStep(pending, NoExceptionHandler, occ, listeners);
    InvokeOneRoutes(h, NoExceptionHandler, occ, listeners);
    if h.outcome.Ok? {
      var rest := InvokeAll(pending[1..], NoExceptionHandler, occ, listeners);
      FaultingListenerReportsOnce(pending[1..], occ, listeners);
      SuppressedErrorsAppend(first.steps, rest.steps);
    } else {
      ReportEscapes(DispatcherSender, Wrap(occ.eventType, h, h.outcome.error), listeners);
    }
  }

  /** With no exception handler no caller callback is ever made. */
  lemma {:induction false} UnhandledPassCallsNoHandler(pending: seq<Handler>, occ: Occurrence, listeners: seq<Handler>)
    ensures HandlerCalls(InvokeAll(pending, NoExceptionHandler, occ, listeners).steps) == []
    decreases |pending|
  {
    if pending != [] {
      var h := pending[0];
      var first := InvokeOne(h, NoExceptionHandler, occ, listeners);
      InvokeAllStep(pending, NoExceptionHandler, occ, listeners);
      InvokeOneRoutes(h, NoExceptionHandler, occ, listeners);
      if first.escaped.None? {
        var rest := InvokeAll(pending[1..], NoExceptionHandler, occ, first.listeners);
        UnhandledPassCallsNoHandler(pending[1..], occ, first.listeners);
        HandlerCallsAppend(first.steps, rest.steps);
      }
    }
  }

  /** The anti-recursion scenario: subscribers that leave the hub alone, one of
      which throws, dispatched with no exception handler to a hub whose
      listeners include a throwing one. Exactly one report is made, for the
      first faulting subscriber; exactly the hub's wrapping exception for the
      first faulting listener escapes the original call; no subscriber after
      the faulting one runs. */
  lemma FaultingListenerFailsLoudly(pending: seq<Handler>, occ: Occurrence, listeners: seq<Handler>)
    requires forall i | 0 <= i < |pending| :: pending[i].effect == Keep
    requires FirstFault(pending) < |pending|
    requires FirstFault(listeners) < |listeners|
    ensures var r := InvokeAll(pending, NoExceptionHandler, occ, listeners);
      var k := FirstFault(pending);
      var j := FirstFault(listeners);
      && Invocations(r.steps) == pending[..k + 1]
      && SuppressedErrors(r.steps) == [Wrap(occ.eventType, pending[k], pending[k].outcome.error)]
      && HandlerCalls(r.steps) == []
      && r.escaped == Some(ListenerFailure(listeners[j], listeners[j].outcome.error))
  {
    FaultingListenerStops(pending, occ, listeners);
    FaultingListenerReportsOnce(pending, occ, listeners);
    UnhandledPassCallsNoHandler(pending, occ, listeners);
  }

  /** A report to a hub with a faulting listener escapes with the hub's
      wrapping exception for the first such listener. */
  lemma ReportEscapes(sender: string, ex: Exception, listeners: seq<Handler>)
    requires FirstFault(listeners) < |listeners|
    ensures var j := FirstFault(listeners);
      Report(sender, ex, listeners).escaped == Some(ListenerFailure(listeners[j], listeners[j].outcome.error))
  {
    var occ := Occurrence(SuppressedExceptionEventType, sender, UnhandledExceptionEventArgs(ex, false));
    CustomPassInvokes(listeners, HubHandler, occ, listeners);
    HubEscapesAtFirstFault(listeners);
  }

  /** A null (empty) event invokes nothing, in every mode, and yields no task array. */
  lemma NullEventInvokesNothing(eh: ExceptionHandler, occ: Occurrence, mode: InvokeMode, listeners: seq<Handler>)
    ensures DispatchOf([], eh, occ, mode, listeners) == Ran(Run([], listeners, None))
  {
  }

  /** Parallel mode with at most one handler is the sequential pass. */
  lemma ParallelWithOneIsSequential(eventHandler: seq<Handler>, eh: ExceptionHandler, occ: Occurrence,
                                    listeners: seq<Handler>)
    requires |eventHandler| <= 1
    ensures DispatchOf(eventHandler, eh, occ, InvokeParallel, listeners) ==
            DispatchOf(eventHandler, eh, occ, Invoke, listeners)
  {
  }

  /** Async mode hands out one task per snapshot handler. */
  lemma AsyncYieldsOneTaskPerHandler(eventHandler: seq<Handler>, eh: ExceptionHandler, occ: Occurrence,
                                     listeners: seq<Handler>)
    requires eventHandler != []
    ensures var d := DispatchOf(eventHandler, eh, occ, InvokeAsync, listeners);
      d.Tasks? && d.work == eventHandler
  {
  }

  /** Unsubscribing right after subscribing restores the listener list. */
  lemma UnsubscribeUndoesSubscribe(listeners: seq<Handler>, h: Handler)
    ensures RemoveLast(listeners + [h], h.id) == listeners
  {
    assert (listeners + [h])[|listeners|].id == h.id;
    assert LastIndex(listeners + [h], h.id) == |listeners|;
    assert (listeners + [h])[..|listeners|] == listeners;
  }

  /** A report to a lone listener that does not throw: one pass, one call,
      and the list the listener's effect leaves behind. */
  lemma LoneListenerReport(sender: string, ex: Exception, l: Handler)
    requires l.outcome.Ok?
    ensures var call := Invoked(l, sender, UnhandledExceptionEventArgs(ex, false));
      Report(sender, ex, [l]) == Run([Suppressed(sender, ex, [call])], Apply(l.effect, [l]), None)
  {
    var occ := Occurrence(SuppressedExceptionEventType, sender, UnhandledExceptionEventArgs(ex, false));
    var first := InvokeOne(l, HubHandler, occ, [l]);
    assert first == Run([Invoked(l, sender, occ.args)], Apply(l.effect, [l]), None);
    assert [l][1..] == [];
    assert InvokeAll([l][1..], HubHandler, occ, first.listeners) == Run([], first.listeners, None);
    assert InvokeAll([l], HubHandler, occ, [l]) == Then(first.steps, Run([], first.listeners, None));
    assert first.steps + [] == first.steps;
  }

  /** A listener that unsubscribes itself during a report is still notified
      in that pass and gone afterwards; one it subscribes is not notified in
      that pass but is on the list for the next. */
  lemma SnapshotIgnoresListChanges(sender: string, ex: Exception, l: Handler, m: Handler)
    requires l.outcome.Ok?
    ensures l.effect == Unsubscribe(l.id) ==>
              Invocations(Report(sender, ex, [l]).steps[0].notified) == [l] &&
              Report(sender, ex, [l]).listeners == []
    ensures l.effect == Subscribe(m) ==>
              Invocations(Report(sender, ex, [l]).steps[0].notified) == [l] &&
              Report(sender, ex, [l]).listeners == [l, m]
  {
    var call := Invoked(l, sender, UnhandledExceptionEventArgs(ex, false));
    LoneListenerReport(sender, ex, l);
    SingletonViews(call);
    assert Report(sender, ex, [l]).steps[0].notified == [call];
    if l.effect == Unsubscribe(l.id) {
      UnsubscribeUndoesSubscribe([], l);
      assert [] + [l] == [l];
      assert Apply(l.effect, [l]) == [];
    }
    if l.effect == Subscribe(m) {
      assert Apply(l.effect, [l]) == [l, m];
    }
  }
}
