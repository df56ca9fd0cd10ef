# Gemstone.Common: resilient event dispatch, the suppressed-exception hub, and path suffixes

This project is a Dafny model of two small pieces of `Gemstone.Common`.

**Resilient event dispatch.** `EventHandlerExtensions.SafeInvoke` takes a snapshot of a multicast delegate's invocation list and calls every handler in turn. Each call has its own try/catch. A handler's fault goes to the caller's `exceptionHandler` when one is given. Otherwise it is wrapped in a `SafeInvoke caught exception in … event handler "…": …` exception and reported to `LibraryEvents.OnSuppressedException`.

**The suppressed-exception hub.** `LibraryEvents` keeps one process-wide listener list, `SuppressedException`. `OnSuppressedException` drops a report when nobody listens. Otherwise it dispatches the report through the same `SafeInvoke`, with an exception handler that *throws* a `Failed in Gemstone.LibraryEvents.SuppressedException event handler "…": …` exception instead of reporting again. That is why a faulting listener ends the chain loudly rather than recursing.

**Path suffixes.** `FilePath` strips and adds trailing directory separators. `GetLastDirectoryName` keeps the last name of a directory path. `GetFileList` picks its search pattern and search option from a path.

Modules:

- `Wrappers` (wrappers.dfy): `Option` and `Result`.
- `FilePath` (file_path.dfy):
  - `Platform` holds the separator characters, with `Windows` (`'\\'`, `'/'`, `':'`) and `Unix` (three times `'/'`).
  - `RemovePathSuffix` and `GetLastDirectoryName` are methods whose loops are proved against the reference functions `Unsuffixed` and `LastName`.
  - `AddPathSuffix` and the `GetFileList` defaulting (`FileListSearch`) are functions.
- `FilePathProperties` (file_path_properties.dfy): idempotence, the split into prefix plus separator run, fixed points, and the add/remove round trips.
- `EventModel` (event_model.dfy):
  - the values: handlers, exceptions, occurrences and the three kinds of exception handler;
  - the reference semantics of one `invokeHandler` call (`InvokeOne`), of the sequential pass (`InvokeAll`) and of a hub report (`Report`), whose trace nests the hub's own pass inside the report;
  - trace views: invocations, hub reports, exception-handler calls and nesting depth.
- `Dispatch` (dispatch.dfy):
  - the class `LibraryEvents`, whose field `listeners` is the invocation list of `s_suppressedExceptionHandler`;
  - the methods `SafeInvoke`, `InvokeEventHandlers` (the snapshot and the `foreach` loop) and `InvokeHandler` (the local `invokeHandler`), each proved equal to the `EventModel` semantics.
- `EventProperties` (event_properties.dfy): what every pass and every report guarantees, as lemmas about that semantics.

How the model represents the source:

- A handler is a value `Handler(id, name, outcome, effect)`.
  - `outcome` is `Ok` or `Throws(ex)`.
  - `effect` is what the handler's body does to the hub's listener list: nothing, a `SuppressedException +=`, or a `-=`. These effects make "the snapshot does not follow list changes" something that can be stated.
  - `name` is the result of the reflection call `GetFriendlyMethodNameWithClass`; `None` means that call failed.
- A null delegate is the empty sequence. `+=` appends. `-=` is `Delegate.Remove`, which takes out the *last* registration of the delegate (`RemoveLast`). A delegate's identity, its target and method, is the handler's `id`; `-=` compares only that.
- A C# delegate is immutable, so the snapshot `GetInvocationList()` of `eventHandler` is the sequence passed in. The only list changed during a pass is the hub's list.
- The caller's `exceptionHandler` is given by what it does when called with a fault and the faulting handler: return, or throw a given exception (`CallerHandler(answer)`, `answer` a function of the two). `HubHandler` is the hub's own throwing handler.
- A run's `escaped` field is the exception that leaves `SafeInvoke`, if any.

## Model

| member | source | states |
|---|---|---|
| FilePath.Unsuffixed | src/Gemstone.Common/IO/FilePath.cs:85-93 | the result is a prefix of the input; every character removed is a directory or alternate separator; the result is empty or ends in a non-separator |
| FilePath.RemovePathSuffix | src/Gemstone.Common/IO/FilePath.cs:77-97 | the loop that drops the last character while it is a separator returns exactly `Unsuffixed` of the input (so `""` for empty input) |
| FilePath.AddPathSuffix | src/Gemstone.Common/IO/FilePath.cs:125-140 | the result is non-empty and ends in a separator; empty input gives `"." + DirectorySeparatorChar`; input already ending in either separator is returned unchanged; otherwise exactly one `DirectorySeparatorChar` is appended |
| FilePath.IndexOfAny | src/Gemstone.Common/IO/FilePath.cs:201-207 | `IndexOfAny(dirVolChars)`: -1 when the string has no directory, alternate or volume separator, otherwise the index of the first one |
| FilePath.LastNameShape | src/Gemstone.Common/IO/FilePath.cs:206-210 | the last name is a suffix of the string, contains no directory, alternate or volume separator, and is either the whole string or preceded by such a separator |
| FilePath.LastNameAfterSeparator | src/Gemstone.Common/IO/FilePath.cs:207-208 | dropping everything up to and including any separator leaves the last name unchanged, the invariant of the stripping loop |
| FilePath.NoSeparatorIsLastName | src/Gemstone.Common/IO/FilePath.cs:207-210 | a string without separators is its own last name, so the loop stops with the right value |
| FilePath.GetLastDirectoryName | src/Gemstone.Common/IO/FilePath.cs:191-211 | fails with ArgumentNull("filePath") exactly when the path is empty; otherwise returns the last name of the unsuffixed `GetDirectoryName` result, a suffix of it with no separator or volume character |
| FilePath.LastIndexOfStar | src/Gemstone.Common/IO/FilePath.cs:164 | `LastIndexOf("*")`: -1 when there is no `'*'`, otherwise the index of the last `'*'` |
| FilePath.FileListSearch | src/Gemstone.Common/IO/FilePath.cs:150-165 | the pattern is `"*.*"` for an empty file name and the file name otherwise; the option is AllDirectories exactly when the last directory name is `"*"`; under TopDirectoryOnly the directory is unchanged; under AllDirectories it is cut at its last `'*'`; the search fails exactly when the directory is empty or the last name is `"*"` but the directory has no `'*'` |
| FilePathProperties.RemovePathSuffixSplits | src/Gemstone.Common/IO/FilePath.cs:87-93 | the input is the `RemovePathSuffix` result followed by a run made only of separators |
| FilePathProperties.AllSeparatorsBecomeEmpty | src/Gemstone.Common/IO/FilePath.cs:87-93 | a string made only of separators becomes `""` |
| FilePathProperties.RemovePathSuffixIdempotent | src/Gemstone.Common/IO/FilePath.cs:77-97 | removing the suffix twice is removing it once |
| FilePathProperties.RemovePathSuffixFixedPoints | src/Gemstone.Common/IO/FilePath.cs:85-93 | a string is left unchanged if and only if it is empty or does not end in a separator |
| FilePathProperties.AddPathSuffixIdempotent | src/Gemstone.Common/IO/FilePath.cs:125-140 | adding the suffix twice is adding it once |
| FilePathProperties.RemoveAfterAdd | src/Gemstone.Common/IO/FilePath.cs:77-140 | for non-empty input, removing the suffix after adding it gives the same as removing it directly |
| FilePathProperties.AddAfterRemove | src/Gemstone.Common/IO/FilePath.cs:77-140 | when something is left after removing the suffix, adding it back appends exactly one `DirectorySeparatorChar` |
| FilePathProperties.WildcardDirectoryIsCut | src/Gemstone.Common/IO/FilePath.cs:160-164 | when the directory is given with itself as its `GetDirectoryName`, a last name of `"*"` always has a `'*'` to cut at, so the defaulting never fails on a non-empty directory |
| EventModel.GetHandlerName | src/Gemstone.Common/EventHandlerExtensions/EventHandlerExtensions.cs:114-124 | never fails: the friendly name when it resolves, `"<undetermined>"` otherwise |
| EventModel.Wrap | src/Gemstone.Common/EventHandlerExtensions/EventHandlerExtensions.cs:55-56 | the reported exception has the original as inner exception and the message `SafeInvoke caught exception in {event type} event handler "{name}": {message}` |
| EventModel.ListenerFailure | src/Gemstone.Common/LibraryEvents.cs:49-54 | the hub's handler throws an exception with the listener's fault as inner exception and the message `Failed in Gemstone.LibraryEvents.SuppressedException event handler "{name}": {message}` |
| EventModel.LastIndex | src/Gemstone.Common/LibraryEvents.cs:33-37 | the position of the last registration of a delegate identity on the list: that entry has the identity and no entry after it does |
| EventModel.RemoveLastTakesOne | src/Gemstone.Common/LibraryEvents.cs:33-37 | `-=` matches registrations by delegate identity: when the delegate is registered, exactly its last registration goes (the multiset loses that one entry, the length drops by one, the entries before it stay in place, the entries after it move up one place in their order, and none with that identity remains after it); otherwise the list is unchanged |
| EventModel.FirstFault | src/Gemstone.Common/EventHandlerExtensions/EventHandlerExtensions.cs:99-100 | the position of a throwing handler in a snapshot, or the length when none throws |
| EventModel.FirstFaultIsFirst | src/Gemstone.Common/EventHandlerExtensions/EventHandlerExtensions.cs:99-100 | every handler before the first throwing one returns normally |
| EventModel.FirstEscape | src/Gemstone.Common/EventHandlerExtensions/EventHandlerExtensions.cs:57-58 | the position of the first throwing handler whose fault the exception handler lets escape, or the length when every fault is absorbed |
| EventModel.FirstEscapeIsFirst | src/Gemstone.Common/EventHandlerExtensions/EventHandlerExtensions.cs:57-58 | every handler before that position returns normally or has its fault absorbed |
| EventModel.HubEscapesAtFirstFault | src/Gemstone.Common/LibraryEvents.cs:49-54 | the hub's handler absorbs no fault, so its pass stops at the first faulting listener |
| Dispatch.LibraryEvents.constructor | src/Gemstone.Common/LibraryEvents.cs:6 | the hub starts with no listeners (the field is null) |
| Dispatch.LibraryEvents.Subscribe | src/Gemstone.Common/LibraryEvents.cs:28-32 | `add` appends the listener to the list |
| Dispatch.LibraryEvents.Unsubscribe | src/Gemstone.Common/LibraryEvents.cs:33-37 | `remove` takes out the last registration with the given delegate identity |
| Dispatch.LibraryEvents.OnSuppressedException | src/Gemstone.Common/LibraryEvents.cs:43-57 | the report and the new list are `Report` of the old list; with no listeners nothing is invoked and nothing escapes |
| Dispatch.SafeInvoke | src/Gemstone.Common/EventHandlerExtensions/EventHandlerExtensions.cs:27-31 | runs the sequential mode, or the parallel one when asked; never returns tasks; the hub list is the one the run leaves |
| Dispatch.InvokeEventHandlers | src/Gemstone.Common/EventHandlerExtensions/EventHandlerExtensions.cs:34-105 | the dispatch equals `DispatchOf` of the snapshot and the old hub list: nothing for a null event; one task per handler in async mode; otherwise the loop gives the sequential pass `InvokeAll`, stopping at the first exception that escapes `invokeHandler` |
| Dispatch.InvokeSequentially | src/Gemstone.Common/EventHandlerExtensions/EventHandlerExtensions.cs:98-101 | the `foreach` over the snapshot yields exactly the sequential pass `InvokeAll` from the old hub list, and leaves the hub list that pass ends with |
| Dispatch.InvokeHandler | src/Gemstone.Common/EventHandlerExtensions/EventHandlerExtensions.cs:44-88 | one handler call with its fault routed as `InvokeOne` says, and the hub list it leaves |
| EventProperties.InvokeOneViews | src/Gemstone.Common/EventHandlerExtensions/EventHandlerExtensions.cs:44-88 | one `invokeHandler` call invokes its handler once, with the event's sender and args; a fault is reported to the hub once (wrapped) with no exception handler, and passed to the exception handler once otherwise, never both; a fault-free handler cannot make anything escape |
| EventProperties.InvokeOneInvokesOnce | src/Gemstone.Common/EventHandlerExtensions/EventHandlerExtensions.cs:44-88 | one call invokes exactly its handler, and only a throwing handler can make something escape |
| EventProperties.InvokeOneRoutes | src/Gemstone.Common/EventHandlerExtensions/EventHandlerExtensions.cs:53-58 | a fault goes to exactly one place: the hub when there is no exception handler, the exception handler otherwise |
| EventProperties.InvokeOneDelivers | src/Gemstone.Common/EventHandlerExtensions/EventHandlerExtensions.cs:51 | one call hands the handler the event's own sender and args |
| EventProperties.InvokeOneCustom | src/Gemstone.Common/EventHandlerExtensions/EventHandlerExtensions.cs:57-58 | with an exception handler, one call leaves the list its handler's effect made, nests no report, and lets escape exactly what the exception handler throws |
| EventProperties.CustomPassIsFlat | src/Gemstone.Common/EventHandlerExtensions/EventHandlerExtensions.cs:57-58 | with an exception handler, a pass never reports to the hub |
| EventProperties.PassDepthBounded | src/Gemstone.Common/LibraryEvents.cs:49-56 | reports nest at most one level deep, and not at all when an exception handler is given: the hub's pass never reports again |
| EventProperties.CompletedPassInvocations | src/Gemstone.Common/EventHandlerExtensions/EventHandlerExtensions.cs:99-100 | when nothing escapes, the handlers invoked are exactly the snapshot, in order |
| EventProperties.PassDeliversOccurrence | src/Gemstone.Common/EventHandlerExtensions/EventHandlerExtensions.cs:51 | every handler of a pass is invoked with the event's own sender and args |
| EventProperties.CompletedPassRoutesToHub | src/Gemstone.Common/EventHandlerExtensions/EventHandlerExtensions.cs:55-56 | with no exception handler and nothing escaping, the hub receives exactly one wrapped report per throwing handler, in order, and no exception-handler call is made |
| EventProperties.CompletedPassRoutesToHandler | src/Gemstone.Common/EventHandlerExtensions/EventHandlerExtensions.cs:57-58 | with an exception handler and nothing escaping, it is called exactly once per throwing handler, in order, with that fault and handler, and nothing is reported to the hub |
| EventProperties.CompletedPassInvokesEveryHandler | src/Gemstone.Common/EventHandlerExtensions/EventHandlerExtensions.cs:49-59 | when nothing escapes, every snapshot handler is invoked exactly once in order, including those after a throwing one, and every fault is routed exactly once |
| EventProperties.EscapedPassStopsAtFault | src/Gemstone.Common/EventHandlerExtensions/EventHandlerExtensions.cs:99-100 | when an exception escapes, the handlers invoked are a non-empty prefix of the snapshot ending with a throwing handler; none after it runs |
| EventProperties.CustomHandlerStopsAtFirstEscape | src/Gemstone.Common/EventHandlerExtensions/EventHandlerExtensions.cs:53-58 | with an exception handler, the pass stops exactly at the first fault whose handling throws (the handler may absorb some faults and throw for others), and only that exception escapes; the handler is called once per fault met; nothing goes to the hub; the hub list changes only by the invoked handlers' effects |
| EventProperties.ReportIsolation | src/Gemstone.Common/LibraryEvents.cs:43-57 | a report is one hub step. Listeners up to and including the first faulting one are notified in list order with `UnhandledExceptionEventArgs(ex, false)` from the sender; none after it is. The hub's pass never reports again. A listener fault escapes as the hub's wrapping exception. With no listeners nothing happens |
| EventProperties.NoHandlerEscapeIsListenerFailure | src/Gemstone.Common/LibraryEvents.cs:49-56 | with no exception handler, anything that escapes is a hub `Failed in Gemstone.LibraryEvents.SuppressedException …` exception with an inner exception: a subscriber fault itself never escapes |
| EventProperties.FaultingListenerStops | src/Gemstone.Common/EventHandlerExtensions/EventHandlerExtensions.cs:55-56 | for subscribers that leave the hub's list alone, a subscriber fault reported to a hub with a faulting listener ends the pass at that subscriber, and the hub's exception for the first faulting listener escapes |
| EventProperties.FaultingListenerReportsOnce | src/Gemstone.Common/LibraryEvents.cs:49-56 | for subscribers that leave the hub's list alone and a hub with a faulting listener, exactly one report is made, for the first faulting subscriber |
| EventProperties.UnhandledPassCallsNoHandler | src/Gemstone.Common/EventHandlerExtensions/EventHandlerExtensions.cs:55-56 | with no exception handler no exception-handler call is ever made |
| EventProperties.FaultingListenerFailsLoudly | src/Gemstone.Common/LibraryEvents.cs:49-56 | subscribers that leave the hub's list alone, a subscriber fault with no exception handler, and a faulting hub listener: exactly one report, exactly one exception escaping the original call (the hub's for the first faulting listener), no subscriber after the fault invoked |
| EventProperties.ReportEscapes | src/Gemstone.Common/LibraryEvents.cs:49-56 | a report to a hub with a faulting listener escapes with the hub's exception for the first faulting listener |
| EventProperties.NullEventInvokesNothing | src/Gemstone.Common/EventHandlerExtensions/EventHandlerExtensions.cs:36-37 | a null event invokes nothing, in every mode, and yields no task array |
| EventProperties.ParallelWithOneIsSequential | src/Gemstone.Common/EventHandlerExtensions/EventHandlerExtensions.cs:95-100 | parallel mode with at most one handler is the sequential pass: same trace, same routing, same escape |
| EventProperties.AsyncYieldsOneTaskPerHandler | src/Gemstone.Common/EventHandlerExtensions/EventHandlerExtensions.cs:93-94 | async mode hands out one task per snapshot handler, in snapshot order |
| EventProperties.UnsubscribeUndoesSubscribe | src/Gemstone.Common/LibraryEvents.cs:28-37 | removing a listener right after adding it restores the list |
| EventProperties.LoneListenerReport | src/Gemstone.Common/LibraryEvents.cs:56 | a report to a single listener that does not throw notifies it once and leaves the list its body made |
| EventProperties.SnapshotIgnoresListChanges | src/Gemstone.Common/EventHandlerExtensions/EventHandlerExtensions.cs:39-42 | the snapshot is taken once: a listener that unsubscribes itself is still notified in that pass and is gone afterwards; one it subscribes is not notified in that pass but is on the list for the next |

## Left out

- Dispatch.InvokeEventHandlers: parallel mode with more than one handler (`Parallel.ForEach`) and async mode (`Task.Run`) return the snapshot as `ForkJoin`/`Tasks`. How those handlers run concurrently, and the hub list they leave, are not modelled: the contract says nothing about the hub list in those modes.
- The `lock` statements are modelled as atomic snapshots and updates. Threads are not modelled.
- `GetFriendlyMethodNameWithClass` is a reflection call whose source is not part of this model. Its outcome is the handler's `name` field, with `None` for a failure.
- The three `switch` cases of `invokeHandler` (`EventHandler`, `EventHandler<TEventArgs>` and `DynamicInvoke`) differ only in .NET calling mechanics. They are one abstract invocation here.
- Each handler's behaviour is fixed as an outcome (return or throw) plus one effect on the hub's list. A handler that does anything else is not modelled.
- A caller-supplied `exceptionHandler` is modelled as a function of the fault and the handler it receives. An answer that depends on earlier calls (state kept by the handler) and its own side effects are not modelled.
- A handler's `+=` effect carries the delegate it adds as a value, so a handler that subscribes itself again is not modelled. Its `-=` effect names a delegate identity, so self-removal is.
- `add`/`remove` with a null value, and subscribing a multicast delegate with several entries, are not modelled. Each registration is one handler.
- `typeof(TEventHandler).FullName` is a string parameter, the event type of the occurrence. `typeof(EventHandlerExtensions)` as sender is the constant `DispatcherSender`.
- `GetDirectoryName` (it calls `Directory.Exists`), `GetFileName`, `GetExtension` and `GetFileNameWithoutExtension` are file-system I/O or thin wrappers over `System.IO.Path`. Their source is not part of this model. Where the `GetDirectoryName` or `GetFileName` result is needed, the model takes it as an input.
- `Directory.GetFiles`, `GetFiles` and `EnumerateFiles` enumerate the file system. FilePath.FileListSearch stops at the directory, pattern and option that `GetFileList` would pass to them.
- A null string in `FilePath` is the empty string. Every modelled operation treats the two alike.
- The hookup of `TaskScheduler.UnobservedTaskException` is described in a doc comment of LibraryEvents.cs. No implementation of it appears in the file, so it is not modelled.
- src/UnitTests/Tests.cs is not part of this model. It reads a configuration file from disk into floating-point arrays and asserts nothing.
- src/Gemstone.COMTRADE/System/ThrowHelper.cs is not part of this model. It is a single null check.
