# Secure Remote Agent: a verified model of its service, plugins and clients

The project models the parts of the Secure Remote Agent in which state, interleaving, text or
arithmetic decide whether the program is right, and proves what they guarantee.

- **Service life cycle** (`ServiceProtocol.dfy`, `Service.dfy`, `ServiceStatus.dfy`). `ServiceMain`, the worker thread and
  the control handler share the reported status, two flags, the stop event and the controller pointer
  without a lock. `ServiceProtocol` gives every access to shared data as one atomic step and proves
  results about all interleavings; `Service.ServiceProcess` is the code, statement by statement, with its
  globals as fields, any steps of the other threads coming between two accesses, and every method proved
  to take only steps that the protocol allows its thread, and how many; `ServiceStatus` relates what the
  controller inside pushes to what the service reports. The reported histories turn out to be *exactly* the prefixes
  of a small language, and a pause or continue that has passed its guard always finds the controller
  alive.
- **The controller** (`ControllerEvents.dfy`, `ServiceController.dfy`). Calls and timer firings as an event
  machine, with the three timers that `start()` creates and nothing stops, and the object with the loops
  that load and unload plugins.
- **Plugins** (`PluginLifecycle.dfy`, `ScraperPlugin.dfy`, `ProxyPlugin.dfy`). The life cycle that both
  plugins spell out in the same words is one class, with its non-recursive mutex as a field; a call that
  would wait for a mutex its own thread holds has the outcome `Blocked`. The scraper's and the proxy's
  counters are tied to the history since the last cleanup.
- **Text extraction** (`Regex.dfy`, `TagStripping.dfy`, `TagCapture.dfy`, `Whitespace.dfy`). A match of
  the three regular expressions is defined declaratively (a cut of the subject into pieces that the parts
  accept, leftmost first); the scanners are proved to compute exactly that.
- **Retrying** (`Backoff.dfy`, `RetryMachine.dfy`, `NetworkClient.dfy`). The machine as written and as the
  class documentation intends it, side by side, with delays computed in 64 bits: a result outside the
  range of the word is a delay that is not defined.
- **Commands and rates** (`RemoteExecutor.dfy`, `NetworkRates.dfy`). Bookkeeping of asynchronous commands;
  network rates with unsigned wrap-around.

`dafny verify dfyconfig.toml` checks the whole project.

## Assumptions about the environment

Memory is sequentially consistent and `ReportServiceStatus` is one atomic step. The dispatcher delivers
one control code at a time and none before the handler is registered. Signals reach the lambdas connected
to them in the emitting thread. Plugin callbacks are absent. Replies still pending when a plugin deletes
its network manager are dropped. `QProcess` signals do not re-enter a running handler, and `finished`
arrives only while a process is current. A timer fires only while it is active.

## Where the code and its documentation or evident intent part

- `attemptReconnect` goes through `postJson`/`postFile`, which zero the retry counter, so the documented
  maximum number of retries is lost: it holds exactly if no retry is allowed at all
  (`RetryMachine.BudgetHoldsIff`). With one request in flight every delay is the first one
  (`RetryMachine.OneAtATime`); repeated failures are spaced as documented exactly where doubling makes no
  difference (`RetryMachine.BackoffAgreesIff`).
- The 64-bit product leaves its range for many retries: from attempt 55 on with the default delays
  (`Backoff.DefaultsOverflow`). Every delay of every run is defined exactly if the last allowed retry fits,
  which up to 33 retries it always does (`RetryMachine.DelaysDefinedIff`).
- A success does not stop the reconnect timer. It is final exactly if, when the post was made, the timer
  was idle and no reply was owed, or no retry is allowed; otherwise a post that went through can be sent
  again (`RetryMachine.SuccessIsFinalIff`). A post of a file with an empty name never comes back as itself
  (`RetryMachine.ReissuesLastPost`).
- STOP may signal an event handle that is already closed (`ServiceProtocol.SignalMayFindEventClosed`); it
  is open exactly until `ServiceMain` has passed its `CloseHandle` (`ServiceProtocol.EventOpenIff`), which
  takes at least six steps of the worker and two of `ServiceMain` (`ServiceProtocol.EventOpenFor`), counted
  exactly in `ServiceProtocol.EventClosedIff`.
- `SERVICE_STOPPED` is reported while the controller still runs (`ServiceProtocol.StoppedWhileRunning`), for
  one to four more steps of the worker, exactly as many as its position says
  (`ServiceProtocol.StoppedBecomesTrue`). An observer of the reports can tell: after the second STOPPED the
  controller is down (`ServiceProtocol.ReportsTellController`).
- The status advertises STOP, PAUSE and CONTINUE in every state after START_PENDING, but each is acted on in
  one state only; a paused service ignores STOP (`ServiceProtocol.AdvertisedControl`).
- A `finished` that comes late, from a superseded process, ends the busy command and gives it the exit code
  of another; completions are right exactly if none does (`RemoteExecutor.CompletionsAreProperIff`).
- A controller stopped while paused goes on saying "Paused" (`ControllerEvents.StatusStringTells`); the
  service accepts STOP only when running, so it never shows there (`ServiceProtocol.ViewsAgree`).
- Pausing suspends no work (`ControllerEvents.PauseSuspendsNothing`), and every effective start leaves
  three more timers behind (`ControllerEvents.TimersAccumulate`).
- `cleanup()` of a running plugin locks itself up; exactly which call histories do so is
  `PluginLifecycle.BlocksIff`. The host's order of calls avoids it.
- The rates pushed over IPC cover only the time between the two samples of a metrics tick
  (`NetworkRates.PushesCoverTicksOnly`). They stand for all that was measured exactly if no reported gap
  between ticks sees the counter move (`NetworkRates.NothingDroppedIff`), and for all of its movement exactly
  if it moves within reporting ticks only (`NetworkRates.PushesAccountIff`).
- A counter that falls is taken for a rise by a whole word (`NetworkRates.BytesTelescope`).

## Model

| member | source | states |
|---|---|---|
| ServiceProtocol.HandlerFindsLiveController | src/components/service/service.cpp:103-127 | in every interleaving, no member of a dead controller is ever used; once PAUSE or CONTINUE has passed its guard the pointer is set, the controller alive and the worker in its loop until the handler returns, and the controller's own guard never turns the call away |
| ServiceProtocol.PointerDangles | src/components/service/service.cpp:79-81 | a run exists in which the pointer still holds the address of the deleted controller |
| ServiceProtocol.TraceLanguage | src/components/service/service.cpp:54-159 | a sequence of reported states is the history of some run if and only if it is a prefix of START_PENDING STOPPED or of START_PENDING RUNNING (PAUSE_PENDING PAUSED PAUSED CONTINUE_PENDING RUNNING RUNNING)^n STOP_PENDING STOPPED STOPPED for some n |
| ServiceProtocol.StoppedIsFinal | src/components/service/service.cpp:58-60 | in no run does anything but STOPPED follow STOPPED |
| ServiceProtocol.CompleteHistory | src/components/service/service.cpp:161-165 | when ServiceMain has returned after a start and the handler is idle, the history is one complete word: both STOPPED reports have been made |
| ServiceProtocol.ViewsAgree | src/components/service/service.cpp:88-127 | with the handler idle and the worker in its loop, reported state, g_paused, g_running and statusString agree, but for a service reported STOPPED, which still says Running; after teardown it says Stopped although m_paused is never cleared |
| ServiceProtocol.FlagsLead | src/components/service/service.cpp:97-123 | g_paused changes before the controller's flag, in between PAUSE_PENDING or CONTINUE_PENDING is reported; the event is signalled only once g_running is cleared |
| ServiceProtocol.StoppedBecomesTrue | src/components/service/service.cpp:72-100 | a service that reports STOPPED with no control being handled does so for good, and whatever the other threads do its controller runs if and only if the worker has taken fewer than a number of steps that its position fixes, at most four |
| ServiceProtocol.ReportsTellController | src/components/service/service.cpp:54-100 | with no control being handled and RUNNING reported before, the controller is down after two reports of STOPPED, runs or is about to report after one, and runs before |
| ServiceProtocol.StoppedWhileRunning | src/components/service/service.cpp:97-100 | a run exists in which STOP is fully handled, STOPPED is reported and the live controller still runs |
| ServiceProtocol.WorkerExits | src/components/service/service.cpp:72-86 | once g_running is false, eight worker steps end the worker whatever the other threads do, even if the event is missed, with the controller stopped and deleted |
| ServiceProtocol.StopSignalsEvent | src/components/service/service.cpp:72-98 | while the worker is still in its loop, a completed STOP has signalled the event, so a worker that waits for it leaves the loop next |
| ServiceProtocol.ServiceReturns | src/components/service/service.cpp:161-165 | once the worker has ended it stays so, and two steps of ServiceMain among any others close the event and end the service |
| ServiceProtocol.EventOpenIff | src/components/service/service.cpp:97-98 | where STOP signals the event, its handle is open if and only if ServiceMain has not yet closed it |
| ServiceProtocol.EventOpenFor | src/components/service/service.cpp:97-98 | since STOP was about to clear g_running, fewer than six worker steps or fewer than two of ServiceMain leave the handle open |
| ServiceProtocol.EventClosedIff | src/components/service/service.cpp:97-98 | with STOP about to signal the event, its handle is closed if and only if the other threads have since covered what was left of the worker's way out and, after it, of ServiceMain's to its CloseHandle |
| ServiceProtocol.FailedStartClosesEvent | src/components/service/service.cpp:144-159 | a failed start leaves no event open |
| ServiceProtocol.SignalMayFindEventClosed | src/components/service/service.cpp:97-98 | a run exists in which the handle is already closed there |
| ServiceProtocol.CheckPointCounts | src/components/service/service.cpp:25-45 | in every run the check point of a pending report is its number among the pending reports modulo a DWORD, final states carry 0, and controls are accepted from the first report after START_PENDING |
| ServiceProtocol.AdvertisedControl | src/components/service/service.cpp:32-36 | a delivered control is acted on if and only if the service is RUNNING (STOP, PAUSE) or PAUSED (CONTINUE), otherwise it passes without effect; an advertised one is ignored exactly in STOPPED and in PAUSED (CONTINUE: RUNNING) |
| ServiceProtocol.RunKeeps | src/components/service/service.cpp:47-165 | the inductive invariant over all program counters, flags, event, pointer and the history |
| Service.ServiceProcess.constructor | src/components/service/service.cpp:9-15 | the globals' initial values are the protocol's initial state |
| Service.OthersKeep | src/components/service/service.cpp:47-165 | whatever the other threads do, a thread stays where it is, and both flags stay as the handler left them |
| Service.ServiceProcess.Yield | src/components/service/service.cpp:47-165 | after a thread's own step any steps of the others follow, none of its own; the process is in a state of the protocol again |
| Service.ServiceProcess.ReportServiceStatus | src/components/service/service.cpp:25-45 | writes the status and check point that the protocol logs and adds one report to the history |
| Service.ServiceProcess.ServiceMain | src/components/service/service.cpp:137-165 | statement by statement, under any interference: takes exactly the steps of ServiceMain that its outcome needs, 6 for a whole run; fails exactly if a Win32 call does, with a failed start or nothing reported; returns only after the worker has ended, with the event closed |
| Service.ServiceProcess.ServiceWorkerThread | src/components/service/service.cpp:47-86 | likewise for the worker, 5 steps to its loop, at most 3 for a turn and 5 to its end: once the loop is left, the controller is stopped, deleted and the pointer null; as long as it turns, the controller is alive and running |
| Service.ServiceProcess.Turn | src/components/service/service.cpp:72-77 | one turn of the loop, which goes on only if g_running was set |
| Service.ServiceProcess.ServiceCtrlHandler | src/components/service/service.cpp:88-135 | likewise for the handler, with 1 step for a control it ignores, 5 for STOP, 8 for PAUSE and CONTINUE: accepts a control exactly in its state, never uses a dead controller, and on return an accepted control has taken effect in reported state, flags and controller, with a lawful history |
| ServiceStatus.FlagsAreTheControllers | src/components/service/service_controller.cpp:100-163 | in every run the controller's flags are those of the event machine after the calls that the worker and the handler make |
| ServiceStatus.PushesTellState | src/components/service/service_controller.cpp:317-326 | while no control is being handled, a metrics tick of the worker's event processing pushes the state last reported, whatever timers fired and plugins loaded before, but Running for a service that reports STOPPED |
| ControllerEvents.AlwaysCoherent | src/components/service/service_controller.cpp:82-151 | after any calls and firings, running coincides with network manager, host, source and watchdog all being set and one watchdog ticking; not running implies no plugins; the missed count is 0 to 2 |
| ControllerEvents.QuietAfterStop | src/components/service/service_controller.cpp:127-151 | after stop nothing is posted, pushed or signalled until the next start, whatever timers of earlier starts fire |
| ControllerEvents.TimersAccumulate | src/components/service/service_controller.cpp:109-119 | the number of active timers of each of three kinds equals the number of effective starts ever made |
| ControllerEvents.OutputsAreAccounted | src/components/service/service_controller.cpp:222-348 | in every run, the posts of each kind and the pushes are those that effective starts, firings while up and watchdog recoveries account for |
| ControllerEvents.HistoryDecides | src/components/service/service_controller.cpp:82-163 | the history decides all outputs and their order: registration, heartbeat, plugin status and started at an effective start, one signal per effective call, one post per timer, metrics before the push; and the flags, missed count, plugins and timers |
| ControllerEvents.SignalsTell | src/components/service/service_controller.cpp:100-163 | in every run the last signal emitted tells whether the controller is stopped, running or paused |
| ControllerEvents.StatusStringTells | src/components/service/service_controller.cpp:76-163 | a running controller's status string agrees with its last signal; once stopped and until the next start it says Stopped if and only if it was not stopped while paused |
| ControllerEvents.PauseSuspendsNothing | src/components/service/service_controller.cpp:153-163 | a paused controller posts the same and pushes as often as a running one for any timer firings |
| ControllerEvents.RecoveriesAreThirds | src/components/service/service_controller.cpp:317-348 | within one start the watchdog's recoveries are the sum of floor(length/3) over the maximal blocks of watchdog ticks without a metrics tick between, and the missed count is the last length modulo 3 |
| ServiceController.ServiceController.constructor | src/components/service/service_controller.cpp:23-36 | a new controller is valid and idle |
| ServiceController.Loader.Unload | src/components/service/service_controller.cpp:209-209 | unloads once more and destroys the instance, which cleans up a second time |
| ServiceController.ServiceController.LoadPlugin | src/components/service/service_controller.cpp:176-198 | a file that cannot be loaded or is no plugin leaves the list alone, a plugin is added, running; never blocks |
| ServiceController.ServiceController.LoadPlugins | src/components/service/service_controller.cpp:165-199 | exactly the plugins among the files are kept, in the order of the directory, all of them distinct and running with free mutexes; never blocks |
| ServiceController.ServiceController.TearDown | src/components/service/service_controller.cpp:202-211 | stop then cleanup then unload never blocks and leaves the plugin as it was before it was initialised |
| ServiceController.ServiceController.UnloadPlugins | src/components/service/service_controller.cpp:201-213 | never blocks; every kept loader is unloaded exactly once and deleted, its plugin unloaded; the list is empty |
| ServiceController.ServiceController.Send | src/components/service/service_controller.cpp:222-315 | posts if and only if there is a network manager |
| ServiceController.ServiceController.SendMetrics | src/components/service/service_controller.cpp:264-270 | samples the counters and posts if and only if there is a network manager |
| ServiceController.ServiceController.Initialize | src/components/service/service_controller.cpp:82-98 | sets network manager, source and host, loads the plugins and posts registration, heartbeat and plugin status in this order |
| ServiceController.ServiceController.Start | src/components/service/service_controller.cpp:100-125 | refines the event machine's start, keeps validity and never blocks |
| ServiceController.ServiceController.Stop | src/components/service/service_controller.cpp:127-151 | refines the event machine's stop, tears every plugin down, keeps validity and never blocks, a second time too |
| ServiceController.ServiceController.Pause | src/components/service/service_controller.cpp:153-157 | refines the event machine's pause |
| ServiceController.ServiceController.Resume | src/components/service/service_controller.cpp:159-163 | refines the event machine's resume |
| ServiceController.ServiceController.PushMetricsToSource | src/components/service/service_controller.cpp:317-334 | posts metrics, resets the missed count and, if there is a source, samples a second time and pushes the status string and the rates since the first sample |
| ServiceController.ServiceController.WatchdogTick | src/components/service/service_controller.cpp:336-348 | counts a missed tick; the third recovers and starts over |
| ServiceController.ServiceController.Fire | src/components/service/service_controller.cpp:109-123 | a timer's timeout refines the event machine's and keeps validity; a metrics tick of a running controller pushes the rates between its own two samples, nothing else samples the counters |
| ServiceController.ServiceRun | src/components/service/service_controller.cpp:72-151 | construct, start, stop and destroy returns for any plugin directory, leaving one timer of each kind |
| PluginLifecycle.BlocksIff | src/plugins/proxy/proxy_plugin.cpp:84-119 | a plugin locks itself up if and only if its calls contain a cleanup before which it was initialised, not cleaned up since, started after that and not stopped since |
| PluginLifecycle.StatusFromHistory | src/plugins/scraper/scraper_plugin.cpp:37-118 | unless blocked, the status is determined by that reading of the call history |
| PluginLifecycle.CallLeavesMessage | src/plugins/scraper/scraper_plugin.cpp:37-118 | after any calls, initialize and start leave their complaint if out of order and no error otherwise, stop and cleanup leave lastError alone |
| PluginLifecycle.AlwaysConsistent | src/plugins/scraper/scraper_plugin.cpp:37-118 | after any calls the timer exists if and only if running, the network manager if and only if not unloaded |
| PluginLifecycle.HostRunReturns | src/components/service/service_controller.cpp:201-207 | after any calls that returned, stop then cleanup, and the destructor's cleanup, return and leave nothing behind; cleanup alone blocks if and only if the calls leave the plugin running |
| PluginLifecycle.Plugin.Initialize | src/plugins/proxy/proxy_plugin.cpp:35-59 | refines the life cycle's initialize and returns true only from Unloaded |
| PluginLifecycle.Plugin.Start | src/plugins/proxy/proxy_plugin.cpp:61-82 | refines the life cycle's start |
| PluginLifecycle.Plugin.Stop | src/plugins/proxy/proxy_plugin.cpp:84-102 | refines the life cycle's stop; blocks if and only if the mutex is held |
| PluginLifecycle.Plugin.Cleanup | src/plugins/proxy/proxy_plugin.cpp:104-119 | refines the life cycle's cleanup; blocks if and only if the mutex is held or the plugin running |
| Regex.StarNotMatches | src/plugins/scraper/scraper_plugin.cpp:18-18 | [^c]* accepts exactly the strings without c |
| TagStripping.TagMatches | src/plugins/scraper/scraper_plugin.cpp:18-18 | a piece of a string matches <[^>]*> if and only if it is an opening bracket, anything but closing ones, and a closing bracket |
| TagStripping.TagFreeIffAbsent | src/plugins/scraper/scraper_plugin.cpp:18-18 | no match exists in a string if and only if every '>' in it precedes every '<' |
| TagStripping.StrippedIsTagFree | src/plugins/scraper/scraper_plugin.cpp:233-233 | stripping leaves no complete tag |
| TagStripping.StrippingIsIdempotent | src/plugins/scraper/scraper_plugin.cpp:233-233 | stripping twice is stripping once |
| TagStripping.StrippedIsSubsequence | src/plugins/scraper/scraper_plugin.cpp:233-233 | stripping adds nothing and keeps the order |
| TagStripping.StripRendered | src/plugins/scraper/scraper_plugin.cpp:231-233 | stripping a rendered document of text and tags gives back exactly its text |
| TagStripping.PassedIsStripped | src/plugins/scraper/scraper_plugin.cpp:233-233 | a pass from any position appends exactly what removing all leftmost matches leaves of the rest |
| TagStripping.StripTags | src/plugins/scraper/scraper_plugin.cpp:233-233 | the single-pass scan computes the removal of all leftmost matches |
| Whitespace.SimplifiedIsNormal | src/plugins/scraper/scraper_plugin.cpp:234-234 | the simplified string is the one normal string with the words of its input, and a string is left alone if and only if it is normal |
| Whitespace.SpacesAre | src/plugins/scraper/scraper_plugin.cpp:234-234 | exactly 25 characters, listed one by one, separate words |
| Whitespace.GapsCollapse | src/plugins/scraper/scraper_plugin.cpp:234-234 | two words of visible ASCII come out with one space between them, whatever blanks stand between and around them |
| Whitespace.Simplify | src/plugins/scraper/scraper_plugin.cpp:234-234 | the scan computes the words of its input joined by single spaces |
| Whitespace.TextContentIsClean | src/plugins/scraper/scraper_plugin.cpp:230-239 | the text content is still free of complete tags, at most 500 long and a prefix of the simplified text, all of it if that is shorter |
| TagCapture.ElementMatches | src/plugins/scraper/scraper_plugin.cpp:249-255 | a cut of the page matches the title or h1 expression if and only if it opens literally, its group runs to the first '<' and is not empty, and the closing tag follows |
| TagCapture.TitleMatches | src/plugins/scraper/scraper_plugin.cpp:249-249 | a cut matches exactly if it is <title>, a non-empty group without '<', and </title> |
| TagCapture.HeadingMatches | src/plugins/scraper/scraper_plugin.cpp:255-255 | a cut matches exactly if it is <h1, anything without '>', >, a non-empty group without '<', and </h1> |
| TagCapture.MatchIsUnique | src/plugins/scraper/scraper_plugin.cpp:249-255 | at most one match starts at any position; its group is non-empty and free of '<' |
| TagCapture.ElementsAreUnambiguous | src/plugins/scraper/scraper_plugin.cpp:249-255 | both expressions are unambiguous, so greediness and backtracking play no part |
| TagCapture.CapturedIsUnique | src/plugins/scraper/scraper_plugin.cpp:250-258 | leftmost match or absence determine the captured content |
| TagCapture.CaptureRoundTrip | src/plugins/scraper/scraper_plugin.cpp:248-259 | plain text placed in an element, with any attributes, is captured back if no tag precedes it |
| TagCapture.Capture | src/plugins/scraper/scraper_plugin.cpp:248-259 | the scan returns the group of the leftmost match, and nothing if and only if no position matches |
| ScraperPlugin.YieldIsUnique | src/plugins/scraper/scraper_plugin.cpp:227-266 | a page and its selectors determine the extracted items |
| ScraperPlugin.HeadingYields | src/plugins/scraper/scraper_plugin.cpp:254-259 | selector h1 yields the text of the first heading, whatever its attributes, if no tag precedes it |
| ScraperPlugin.TitleYields | src/plugins/scraper/scraper_plugin.cpp:248-253 | selector title yields the text of the title if no tag precedes it |
| ScraperPlugin.NoTagNoContent | src/plugins/scraper/scraper_plugin.cpp:248-259 | on a page without '<' the items of title and h1, in this order, have no content |
| ScraperPlugin.OtherSelectorsYield | src/plugins/scraper/scraper_plugin.cpp:260-262 | any other selector yields the message that it is not implemented |
| ScraperPlugin.TextYields | src/plugins/scraper/scraper_plugin.cpp:230-239 | without selectors, two words between two tags yield one item text_content with the words, one space between them, cut at 500 |
| ScraperPlugin.CountersFollowHistory | src/plugins/scraper/scraper_plugin.cpp:114-117 | in every unblocked run the pages are the successes since the last cleanup, the data the sum of their item counts and at least the pages, the URL list their first occurrences |
| ScraperPlugin.NoDuplicates | src/plugins/scraper/scraper_plugin.cpp:293-295 | the URL list has no duplicates and exactly the URLs that succeeded |
| ScraperPlugin.FirstOccurrencesUnique | src/plugins/scraper/scraper_plugin.cpp:293-295 | the history determines the URL list, order included |
| ScraperPlugin.LastErrorTells | src/plugins/scraper/scraper_plugin.cpp:37-118 | lastError is the error of the last failed scrape, or what the calls since then have left: the complaint of one out of order, nothing after one in order |
| ScraperPlugin.LifeFollowsCalls | src/plugins/scraper/scraper_plugin.cpp:37-118 | scrapes have no part in the life cycle and never block |
| ScraperPlugin.ScraperPlugin.ParseHtml | src/plugins/scraper/scraper_plugin.cpp:227-277 | yields the stripped, simplified, cut text without selectors, one item per selector otherwise, and counts the items |
| ScraperPlugin.ScraperPlugin.OnScrapeFinished | src/plugins/scraper/scraper_plugin.cpp:279-318 | a success yields the page's items, counts a page and remembers a new URL; a failure only records its error |
| ScraperPlugin.ScraperPlugin.Cleanup | src/plugins/scraper/scraper_plugin.cpp:102-118 | resets the counters if and only if it returns |
| ProxyPlugin.Conservation | src/plugins/proxy/proxy_plugin.cpp:202-222 | over every unblocked interleaving since the last cleanup, requests handled are the forwards issued while online and each is pending, answered or refused; bytes are those of the issued bodies and the successful responses |
| ProxyPlugin.LastErrorTells | src/plugins/proxy/proxy_plugin.cpp:35-119 | lastError is the error of the last refused reply, or what the calls since then have left of it |
| ProxyPlugin.LifeFollowsCalls | src/plugins/proxy/proxy_plugin.cpp:35-119 | forwards and replies have no part in the life cycle and never leave the mutex locked |
| ProxyPlugin.ProxyPlugin.ForwardRequest | src/plugins/proxy/proxy_plugin.cpp:127-157 | forwards a non-empty URL if there is a network manager, reports the status, and blocks if and only if the mutex is held |
| ProxyPlugin.ProxyPlugin.HandleProxyRequest | src/plugins/proxy/proxy_plugin.cpp:202-214 | counts a request and its bytes if and only if there is a network manager |
| ProxyPlugin.ProxyPlugin.OnRequestFinished | src/plugins/proxy/proxy_plugin.cpp:216-243 | adds the bytes of a successful response, records the error of a failed one |
| ProxyPlugin.ProxyPlugin.Cleanup | src/plugins/proxy/proxy_plugin.cpp:104-119 | resets the counters and drops pending replies if and only if it returns |
| Backoff.NoOverflowIff | src/core/network_client.cpp:209-212 | the code yields the documented delay for all settings if and only if the attempt is at most 33 |
| Backoff.ComputedIff | src/core/network_client.cpp:209-212 | for given settings it does so if and only if the power and the product fit into 64 bits; otherwise no delay is defined |
| Backoff.DefaultsOverflow | src/core/network_client.cpp:9-11 | with the default delays attempt 54 still yields the maximum, attempt 55 nothing |
| Backoff.DelayDoubles | src/core/network_client.cpp:209-212 | while it fits, the delay starts at the initial delay, doubles with every attempt and stays at the maximum; where it does not, it is not defined |
| Backoff.DelayIsMonotone | src/core/network_client.cpp:209-212 | of any two attempts of which the later fits, the earlier does too and its delay is no longer |
| Backoff.TotalWait | src/core/network_client.cpp:150-154 | the sum of n waits is defined if and only if the last attempt fits, and then at most n maximal delays and the geometric sum |
| Backoff.DocumentedIff | src/core/network_client.cpp:209-212 | the computed delays of n attempts are the documented ones if and only if the last attempt fits |
| RetryMachine.ReissuesLastPost | src/core/network_client.cpp:175-181 | in every run of either machine, a reconnect reissues the most recent public post if and only if that is not a file with an empty name |
| RetryMachine.ReissueIsRecorded | src/core/network_client.cpp:175-181 | what the timer reissues is the latest public post, and reissuing leaves the replay state at it |
| RetryMachine.ReissueKind | src/core/network_client.cpp:175-181 | what would be reissued is the latest post, and for a file with an empty name the data of the last JSON post |
| RetryMachine.NothingBeforeFirstPost | src/core/network_client.cpp:143-161 | nothing happens before the first post |
| RetryMachine.RequestsAreConserved | src/core/network_client.cpp:55-114 | in every run of either machine, the requests sent - JSON posts, files that open, reissues of either - are those replied to and those in flight |
| RetryMachine.UnopenedFilesSendNothing | src/core/network_client.cpp:84-89 | posts of files that cannot be opened have no consequence: nothing in flight, no delay, no reissue |
| RetryMachine.StaleTimerRepeats | src/core/network_client.cpp:156-159 | a run in which a post that succeeded is sent again by the timer of an earlier one |
| RetryMachine.SuccessIsFinalIff | src/core/network_client.cpp:143-161 | in either machine and from any state, a success of a post is followed by no reissue before the next post if and only if the timer was idle and no reply owed when it was made, or no retry is allowed; otherwise that very post may be sent again |
| RetryMachine.CounterBoundedByOverlap | src/core/network_client.cpp:143-161 | as written, in every run the counter plus the requests in flight never exceeds the most ever in flight at once, the counter never exceeds maxRetries, and every delay is the one computed for an attempt within both bounds |
| RetryMachine.OneAtATime | src/core/network_client.cpp:55-82 | as written with one request in flight, the counter never passes 1 and every delay is the initial one, capped |
| RetryMachine.OverlapRun | src/core/network_client.cpp:143-155 | n requests at once of which k fail cause min(k, maxRetries) delays, the computed ones in order, in either machine |
| RetryMachine.DelaysDefinedIff | src/core/network_client.cpp:150-154 | in either machine every delay of every run is defined if and only if the last allowed retry fits into 64 bits; at most 33 retries always do |
| RetryMachine.FailuresReissue | src/core/network_client.cpp:143-181 | n failures of one post cause n reissues as written (none without retries), each after the first delay, and min(n, maxRetries) as intended, after the computed delays in order |
| RetryMachine.BackoffAgreesIff | include/core/network_client.h:16-18 | as written, the delays of repeated failures are the documented ones, for any number of failures, if and only if the initial delay is 0 or at least the maximum; within the documented retries also if there is at most one |
| RetryMachine.BudgetHoldsIff | include/core/network_client.h:59-65 | over all replies and firings after one post, the maximum number of reconnects holds as written if and only if no retries are allowed; as intended always |
| RetryMachine.IntendedIsBounded | include/core/network_client.h:16-18 | as intended, one post and any replies and firings: at most maxRetries reissues, with the computed delays in order; while the last fits these are the documented ones and their total is within both bounds |
| RetryMachine.IntendedDiesDown | include/core/network_client.h:16-18 | as intended, after one post and whatever replies and firings, at most 3 * maxRetries + 1 events have any effect |
| RetryMachine.BudgetPerReset | include/core/network_client.h:59-65 | over any posts, overlapping or not, every post, success and, as written, reissue pays for at most maxRetries delays, and every reissue has a delay of its own |
| NetworkClient.NetworkClient.constructor | src/core/network_client.cpp:6-20 | an idle client |
| NetworkClient.NetworkClient.PostJson | src/core/network_client.cpp:55-76 | refines the machine's post, leaves an armed timer armed |
| NetworkClient.NetworkClient.PostFile | src/core/network_client.cpp:78-114 | refines the machine's post, also when the file cannot be opened; leaves an armed timer armed |
| NetworkClient.NetworkClient.CalculateBackoff | src/core/network_client.cpp:209-212 | in 64 bits: the documented delay if power and product fit, otherwise none |
| NetworkClient.NetworkClient.OnRequestFinished | src/core/network_client.cpp:143-162 | refines the machine's failure and success; a failure within the budget restarts the timer with the next backoff, a success leaves it armed |
| NetworkClient.NetworkClient.AttemptReconnect | src/core/network_client.cpp:175-181 | refines the machine's timer firing as written: reissues through the public functions |
| RemoteExecutor.CommandsAreConserved | src/core/remote_executor.cpp:77-113 | in every run started commands are those ended, preempted or current; a current process implies an armed timeout and is the latest created; the output is what was read since the last start |
| RemoteExecutor.HistoryDecides | src/core/remote_executor.cpp:282-362 | the list of all completions is read off the history: one for each finished signal and timeout that finds a command busy, none for an error, a start or output; so is whether the timeout is armed |
| RemoteExecutor.StaleTimeout | src/core/remote_executor.cpp:83-112 | a timeout armed without a current process was left by a start that failed while another command was busy, and its firing does nothing |
| RemoteExecutor.CompletionCarriesTranscript | src/core/remote_executor.cpp:282-362 | a completion, by a signal or the timeout, ends the latest command and carries exactly the output read since it started |
| RemoteExecutor.CompletionsAreProperIff | src/core/remote_executor.cpp:282-295 | every completion gives a command its own exit code if and only if no finished signal of a superseded process arrives while another command is busy |
| RemoteExecutor.RemoteExecutor.ExecuteCommandAsync | src/core/remote_executor.cpp:77-113 | refines the machine: refusal, supersession, failed and successful start |
| RemoteExecutor.RemoteExecutor.OnProcessFinished | src/core/remote_executor.cpp:282-295 | completes the current command with its output and the exit code of whichever process finished |
| RemoteExecutor.RemoteExecutor.OnProcessError | src/core/remote_executor.cpp:297-327 | stops the timeout and ends the command, if one is current |
| RemoteExecutor.RemoteExecutor.OnReadyReadStandardOutput | src/core/remote_executor.cpp:329-335 | appends to the output of a current command |
| RemoteExecutor.RemoteExecutor.OnExecutionTimeout | src/core/remote_executor.cpp:345-362 | completes a current command with its output, otherwise does nothing |
| NetworkRates.BytesTelescope | src/components/service/service_controller.cpp:384-394 | for any list of samples, rate times interval summed plus the growth over samples without a rate is last minus first, plus one word for each reporting sample at which the counter fell |
| NetworkRates.RatesAccountIff | src/components/service/service_controller.cpp:384-394 | the rates account for the counter if and only if no reporting sample sees it fall |
| NetworkRates.PushesCoverTicksOnly | src/components/service/service_controller.cpp:264-332 | everything measured is pushed or dropped, and what is pushed is the movement of the counter within the ticks that report |
| NetworkRates.NothingDroppedIff | src/components/service/service_controller.cpp:264-332 | nothing is dropped, and the pushed rates stand for all that was measured, if and only if no reported gap between ticks sees the counter move |
| NetworkRates.PushesAccountIff | src/components/service/service_controller.cpp:264-332 | the pushed rates stand for at most the movement of the counter, and for all of it if and only if it moves only within ticks that report |
| NetworkRates.MovementIsGrowth | src/components/service/service_controller.cpp:384-394 | while the counter never falls, that movement is its growth from first to last |
| NetworkRates.Meter.Measure | src/components/service/service_controller.cpp:362-394 | reports rates only over a sample without zeros and elapsed time, and remembers the sample |
| NetworkRates.Meter.MeasureTick | src/components/service/service_controller.cpp:317-332 | two samples, of which the rates between them are pushed |
| NetworkRates.Meter.MeasureTicks | src/components/service/service_controller.cpp:317-332 | any run of ticks pushes the rates within each, whatever was measured before |
| NetworkRates.Meter.MeasureAll | src/components/service/service_controller.cpp:362-394 | any list of samples yields the rates between neighbours |
| NetworkRates.RatesAreKilobytesPerSecond | src/components/service/service_controller.cpp:384-390 | rates are in units of 1024 bytes a second from millisecond ticks, differences taken modulo 2^64; a sample reports exactly if the one before has no zero and the tick count differs |

## Left out

- TLS set-up, certificate pinning, HTTP headers, JSON building and timestamps: library calls without a property of their own.
- QtRemoteObjects IPC, `UiManager` and QML, the agent and simulator executables, installing and uninstalling the service: forwarding, user interface or Win32 calls.
- What a timer fires during a control: `PushesTellState` speaks of a handler between controls.
- File-system operations, `killProcess`, `listProcesses`, `executeScript`, the synchronous `executeCommand`, `validateCommand`, `sanitizeArguments` and standard error of `RemoteExecutor`: they would only add easy members.
- `setConfig`, the command registry and the remaining actions of `executeWithParams` of both plugins: maps and constant replies.
- CPU and memory figures of `measureSystemMetrics`: one clamped quotient and library values.
- Negative delays: `setReconnectStrategy` accepts them; here a delay setting is an int that is not negative.
- `onRequestTimeout`: not connected to any signal. `setReconnectStrategy` during a run: the settings are constants of the object.
- Exit code and wait hint of `ReportServiceStatus`: written once and never read.
- Wrap-around of the plugins' 64-bit counters: unreachable in practice; they are natural numbers here.
- Whitespace.Left: counts a character outside the basic plane as one, where `left(500)` counts its two UTF-16 units.
- PluginLifecycle.Plugin.Initialize: the two plugins' copies of the life cycle are one class; the host sees a plugin only through it, so the plugins' own counters play no part in the host's proofs.
- Service.ServiceProcess.ServiceWorkerThread: returns after a given number of turns if the loop has not ended, and `ServiceMain` if the worker has not; that a worker does end is proved of the protocol (`ServiceProtocol.WorkerExits`).
- Match and backtracking limits of the regular expression engine: a match that exists is taken to be found.
