/** The service lifecycle of service.cpp: ServiceMain, the worker thread and the control handler
    share the reported status, two flags, the stop event and the controller pointer without a lock.
    Every access to shared data is one atomic step, steps of the three threads interleave freely,
    and the dispatcher delivers one control code at a time.
 */
module ServiceProtocol {
  import ControllerEvents

  datatype Report =
    | Unreported // dwCurrentState as zero-initialised
    | StartPending | Running | PausePending | Paused | ContinuePending | StopPending | Stopped

  datatype Control = Stop | Pause | Continue | Other

  datatype MainPc =
    | Register | ReportStart | CreateEvent | ReportNoEvent | CreateThread | ReportNoThread
    | CloseUnused | Failed           // Failed: returned early, without a worker
    | AwaitWorker | CloseEvent | Returned

  datatype WorkerPc =
    | NotCreated | NewController | StartGuard | SetRunning | ClearPaused | EmitStarted
    | CheckFlag | AwaitEvent | ProcessEvents
    | StopGuard | ClearRunning | EmitStopped | Delete | ClearPointer | Exited

  datatype HandlerPc =
    | Idle | Dispatch(control: Control)
    | StopReport | StopFlag | StopSignal | StopDone
    | PauseReport | PauseFlag | PauseTest | PauseGuard | PauseSet | PauseEmit | PauseDone
    | ContReport | ContFlag | ContTest | ContGuard | ContSet | ContEmit | ContDone

  // Dangling: the controller has been deleted, the pointer still holds its address.
  datatype Pointer = Null | Live | Dangling

  datatype EventHandle = NoEvent | Unset | Signalled | Closed

  // Program counters and shared data, except for what ReportServiceStatus writes.
  datatype Core = Core(
    main: MainPc, worker: WorkerPc, handler: HandlerPc,
    gRunning: bool, gPaused: bool, event: EventHandle, controller: Pointer,
    mRunning: bool, mPaused: bool,
    fault: bool) // a member of a controller that is not live was used

  // g_serviceStatus, the static check point counter, and every SetServiceStatus so far.
  datatype Log = Log(current: Report, acceptsControls: bool, checkPoint: nat, nextCheckPoint: nat, trace: seq<Report>)

  datatype State = State(core: Core, log: Log)

  // One scheduling choice. `ok` is the outcome of a Win32 call that may fail.
  datatype Action = MainStep(ok: bool) | WorkerStep | HandlerStep | Deliver(control: Control)

  const DWORD_RANGE := 0x1_0000_0000

  const INITIAL := State(
    Core(Register, NotCreated, Idle, true, false, NoEvent, Null, false, false, false),
    Log(Unreported, false, 0, 1, []))

  predicate Final(r: Report) { r == Running || r == Stopped }

  function Logged(log: Log, r: Report): Log {
    Log(r, r != StartPending, if Final(r) then 0 else log.nextCheckPoint,
        if Final(r) then log.nextCheckPoint else (log.nextCheckPoint + 1) % DWORD_RANGE,
        log.trace + [r])
  }

  function MainNext(s: Core, ok: bool): Core {
    match s.main
    case Register => s.(main := if ok then ReportStart else Failed)
    case ReportStart => s.(main := CreateEvent)
    case CreateEvent => if ok then s.(event := Unset, main := CreateThread) else s.(main := ReportNoEvent)
    case ReportNoEvent => s.(main := Failed)
    case CreateThread => if ok then s.(worker := NewController, main := AwaitWorker) else s.(main := ReportNoThread)
    case ReportNoThread => s.(main := CloseUnused)
    case CloseUnused => s.(event := Closed, main := Failed)
    case AwaitWorker => if s.worker == Exited then s.(main := CloseEvent) else s
    case CloseEvent => s.(event := Closed, main := Returned)
    case Failed | Returned => s
  }

  function WorkerNext(s: Core): Core {
    match s.worker
    case NotCreated => s
    case NewController => s.(controller := Live, mRunning := false, mPaused := false, worker := StartGuard)
    case StartGuard => s.(worker := if s.mRunning then CheckFlag else SetRunning)
    case SetRunning => s.(mRunning := true, worker := ClearPaused)
    case ClearPaused => s.(mPaused := false, worker := EmitStarted)
    case EmitStarted => s.(worker := CheckFlag)
    case CheckFlag => s.(worker := if s.gRunning then AwaitEvent else StopGuard)
    case AwaitEvent => s.(worker := if s.event == Signalled then StopGuard else ProcessEvents)
    case ProcessEvents => s.(worker := CheckFlag)
    case StopGuard => s.(worker := if s.mRunning then ClearRunning else Delete)
    case ClearRunning => s.(mRunning := false, worker := EmitStopped)
    case EmitStopped => s.(worker := Delete)
    case Delete => s.(controller := Dangling, worker := ClearPointer)
    case ClearPointer => s.(controller := Null, worker := Exited)
    case Exited => s
  }

  // Using a member of *g_controller.
  function Use(s: Core): Core { s.(fault := s.fault || s.controller != Live) }

  function HandlerNext(s: Core, current: Report): Core {
    match s.handler
    case Idle => s
    case Dispatch(c) => s.(handler := match c
      case Stop => if current == Running then StopReport else Idle
      case Pause => if current == Running then PauseReport else Idle
      case Continue => if current == Paused then ContReport else Idle
      case Other => Idle)
    case StopReport => s.(handler := StopFlag)
    case StopFlag => s.(gRunning := false, handler := StopSignal)
    case StopSignal => s.(event := if s.event == Unset then Signalled else s.event, handler := StopDone)
    case StopDone => s.(handler := Idle)
    case PauseReport => s.(handler := PauseFlag)
    case PauseFlag => s.(gPaused := true, handler := PauseTest)
    case PauseTest => s.(handler := if s.controller == Null then PauseDone else PauseGuard)
    case PauseGuard => Use(s).(handler := if !s.mRunning || s.mPaused then PauseDone else PauseSet)
    case PauseSet => Use(s).(mPaused := true, handler := PauseEmit)
    case PauseEmit => Use(s).(handler := PauseDone)
    case PauseDone => s.(handler := Idle)
    case ContReport => s.(handler := ContFlag)
    case ContFlag => s.(gPaused := false, handler := ContTest)
    case ContTest => s.(handler := if s.controller == Null then ContDone else ContGuard)
    case ContGuard => Use(s).(handler := if !s.mRunning || !s.mPaused then ContDone else ContSet)
    case ContSet => Use(s).(mPaused := false, handler := ContEmit)
    case ContEmit => Use(s).(handler := ContDone)
    case ContDone => s.(handler := Idle)
  }

  // The dispatcher calls the handler only once it is registered and only when it is idle.
  function Delivered(s: Core, c: Control): Core {
    if s.handler == Idle && s.main != Register then s.(handler := Dispatch(c)) else s
  }

  function CoreNext(s: Core, current: Report, a: Action): Core {
    match a
    case MainStep(ok) => MainNext(s, ok)
    case WorkerStep => WorkerNext(s)
    case HandlerStep => HandlerNext(s, current)
    case Deliver(c) => Delivered(s, c)
  }

  // What the step reports; Unreported if it does not report. The controller's signals report
  // through lambdas that run in the emitting thread.
  function Emits(s: Core, a: Action): Report {
    match a
    case MainStep(_) =>
      (match s.main
       case ReportStart => StartPending
       case ReportNoEvent | ReportNoThread => Stopped
       case _ => Unreported)
    case WorkerStep => if s.worker == EmitStarted then Running else if s.worker == EmitStopped then Stopped else Unreported
    case HandlerStep =>
      (match s.handler
       case StopReport => StopPending
       case StopDone => Stopped
       case PauseReport => PausePending
       case PauseEmit | PauseDone => Paused
       case ContReport => ContinuePending
       case ContEmit | ContDone => Running
       case _ => Unreported)
    case Deliver(_) => Unreported
  }

  function LogNext(log: Log, r: Report): Log { if r == Unreported then log else Logged(log, r) }

  function Step(s: State, a: Action): State {
    State(CoreNext(s.core, s.log.current, a), LogNext(s.log, Emits(s.core, a)))
  }

  function RunFrom(s: State, acts: seq<Action>): State {
    if acts == [] then s else Step(RunFrom(s, acts[..|acts| - 1]), acts[|acts| - 1])
  }

  lemma RunSnoc(s: State, acts: seq<Action>, a: Action)
    ensures RunFrom(s, acts + [a]) == Step(RunFrom(s, acts), a)
  {
    assert (acts + [a])[..|acts|] == acts;
  }

  function Run(acts: seq<Action>): State { RunFrom(INITIAL, acts) }

  // How many steps each thread takes.
  function MainSteps(acts: seq<Action>): nat { multiset(acts)[MainStep(true)] + multiset(acts)[MainStep(false)] }

  function WorkerSteps(acts: seq<Action>): nat { multiset(acts)[WorkerStep] }

  function HandlerSteps(acts: seq<Action>): nat { multiset(acts)[HandlerStep] }

  lemma StepsAdd(before: seq<Action>, more: seq<Action>)
    ensures MainSteps(before + more) == MainSteps(before) + MainSteps(more)
    ensures WorkerSteps(before + more) == WorkerSteps(before) + WorkerSteps(more)
    ensures HandlerSteps(before + more) == HandlerSteps(before) + HandlerSteps(more)
  {}

  lemma StepsSnoc(acts: seq<Action>, a: Action)
    ensures MainSteps(acts + [a]) == MainSteps(acts) + if a.MainStep? then 1 else 0
    ensures WorkerSteps(acts + [a]) == WorkerSteps(acts) + if a == WorkerStep then 1 else 0
    ensures HandlerSteps(acts + [a]) == HandlerSteps(acts) + if a == HandlerStep then 1 else 0
  {
    StepsAdd(acts, [a]);
  }

  // ---- The language of reported states -------------------------------------------------------

  // A pause and a continue: the second Paused and the second Running are the handler's own
  // reports after the ones made by the controller's signals.
  const CYCLE: seq<Report> := [PausePending, Paused, Paused, ContinuePending, Running, Running]

  function Cycles(n: nat): seq<Report> { if n == 0 then [] else Cycles(n - 1) + CYCLE }

  function Body(n: nat): seq<Report> { [StartPending, Running] + Cycles(n) }

  // The whole history of a service that came up, was paused and continued n times, and stopped.
  function Word(n: nat): seq<Report> { Body(n) + [StopPending, Stopped, Stopped] }

  const FAILED_START: seq<Report> := [StartPending, Stopped]

  ghost predicate Lawful(t: seq<Report>) {
    t <= FAILED_START || exists n :: t <= Word(n)
  }

  // ---- The inductive invariant ---------------------------------------------------------------

  // How far a worker is: 6 from its Running report on, 9 once out of its loop, 12 after its
  // Stopped report.
  function Rank(w: WorkerPc): nat {
    match w
    case NotCreated => 0 case NewController => 1 case StartGuard => 2
    case SetRunning => 3 case ClearPaused => 4 case EmitStarted => 5
    case CheckFlag => 6 case AwaitEvent => 7 case ProcessEvents => 8
    case StopGuard => 9 case ClearRunning => 10 case EmitStopped => 11
    case Delete => 12 case ClearPointer => 13 case Exited => 14
  }

  predicate Booted(w: WorkerPc) { Rank(w) >= 6 }

  predicate InLoop(w: WorkerPc) { 6 <= Rank(w) <= 8 }

  predicate Emitted(w: WorkerPc) { Rank(w) >= 12 }

  datatype Phase =
    | Resting(level: Report)  // no control accepted; level is the reported state
    | Pausing(step: nat) | Continuing(step: nat) | Stopping(step: nat)

  function PhaseOf(h: HandlerPc, current: Report): Phase {
    match h
    case Idle | Dispatch(_) => Resting(current)
    case PauseReport => Pausing(0) case PauseFlag => Pausing(1) case PauseTest => Pausing(2)
    case PauseGuard => Pausing(3) case PauseSet => Pausing(4) case PauseEmit => Pausing(5) case PauseDone => Pausing(6)
    case ContReport => Continuing(0) case ContFlag => Continuing(1) case ContTest => Continuing(2)
    case ContGuard => Continuing(3) case ContSet => Continuing(4) case ContEmit => Continuing(5) case ContDone => Continuing(6)
    case StopReport => Stopping(0) case StopFlag => Stopping(1) case StopSignal => Stopping(2) case StopDone => Stopping(3)
  }

  function PhaseIn(s: State): Phase { PhaseOf(s.core.handler, s.log.current) }

  predicate WantsPaused(p: Phase, from: nat) {
    match p
    case Resting(level) => level == Paused
    case Pausing(k) => k >= from
    case Continuing(k) => k < from
    case Stopping(_) => false
  }

  // STOP has been accepted and g_running cleared.
  predicate Condemned(p: Phase) {
    match p
    case Resting(level) => level == Stopped
    case Stopping(k) => k >= 2
    case _ => false
  }

  // The state last reported in a phase.
  function Level(p: Phase, emitted: bool): Report {
    match p
    case Resting(level) => level
    case Pausing(i) => if i == 0 then Running else if i < 6 then PausePending else Paused
    case Continuing(i) => if i == 0 then Paused else if i < 6 then ContinuePending else Running
    case Stopping(i) => if i == 0 then Running else if emitted then Stopped else StopPending
  }

  // Main, worker, event and pointer progress together.
  predicate ThreadsAgree(s: Core) {
    && (match s.main
        case Register | ReportStart | CreateEvent | ReportNoEvent => s.worker == NotCreated && s.event == NoEvent
        case CreateThread | ReportNoThread | CloseUnused => s.worker == NotCreated && s.event == Unset
        case Failed => s.worker == NotCreated && (s.event == NoEvent || s.event == Closed)
        case AwaitWorker => s.worker != NotCreated && (s.event == Unset || s.event == Signalled)
        case CloseEvent => s.worker == Exited && (s.event == Unset || s.event == Signalled)
        case Returned => s.worker == Exited && s.event == Closed)
    && s.controller == (match s.worker
                        case NotCreated | NewController | Exited => Null
                        case ClearPointer => Dangling
                        case _ => Live)
  }

  // Before the worker's Running report the handler finds nothing to do.
  predicate QuietBoot(s: Core, current: Report) {
    && PhaseOf(s.handler, current).Resting?
    && s.gRunning && !s.gPaused && !s.mPaused
    && (s.mRunning <==> s.worker == ClearPaused || s.worker == EmitStarted)
    && s.event != Signalled
    && (match s.main
        case Register | ReportStart => current == Unreported
        case CloseUnused => current == Stopped
        case Failed => current == Unreported || current == Stopped
        case _ => current == StartPending)
  }

  // After it, flags, reported state and worker follow the handler's phase. The event cannot be
  // signalled before STOP's own SetEvent.
  predicate PhaseAgrees(s: Core, current: Report) {
    var p := PhaseOf(s.handler, current);
    && (p.Resting? ==> p.level == Running || p.level == Paused || p.level == Stopped)
    && s.gRunning == !Condemned(p)
    && s.gPaused == WantsPaused(p, 2)
    && s.mPaused == WantsPaused(p, 5)
    && s.mRunning == (Rank(s.worker) <= 10)
    && (s.gRunning ==> InLoop(s.worker))
    && (s.gRunning || p == Stopping(2) ==> s.event != Signalled)
    && (p == Stopping(3) || p == Resting(Stopped) ==> s.event == Signalled || s.event == Closed)
    && current == Level(p, Emitted(s.worker))
  }

  predicate Consistent(s: Core, current: Report) {
    && ThreadsAgree(s)
    && !s.fault
    && (if Booted(s.worker) then PhaseAgrees(s, current) else QuietBoot(s, current))
  }

  function CurrentNext(s: Core, current: Report, a: Action): Report {
    if Emits(s, a) == Unreported then current else Emits(s, a)
  }

  lemma MainKeeps(s: Core, current: Report, ok: bool)
    requires Consistent(s, current)
    ensures Consistent(MainNext(s, ok), CurrentNext(s, current, MainStep(ok)))
  {}

  lemma WorkerBoots(s: Core, current: Report)
    requires Consistent(s, current) && !Booted(s.worker)
    ensures Consistent(WorkerNext(s), CurrentNext(s, current, WorkerStep))
  {}

  lemma WorkerTurns(s: Core, current: Report)
    requires Consistent(s, current) && InLoop(s.worker)
    ensures Consistent(WorkerNext(s), CurrentNext(s, current, WorkerStep))
  {}

  lemma WorkerTearsDown(s: Core, current: Report)
    requires Consistent(s, current) && Rank(s.worker) >= 9
    ensures Consistent(WorkerNext(s), CurrentNext(s, current, WorkerStep))
  {}

  lemma WorkerKeeps(s: Core, current: Report)
    requires Consistent(s, current)
    ensures Consistent(WorkerNext(s), CurrentNext(s, current, WorkerStep))
  {
    if !Booted(s.worker) {
      WorkerBoots(s, current);
    } else if InLoop(s.worker) {
      WorkerTurns(s, current);
    } else {
      WorkerTearsDown(s, current);
    }
  }

  // A pause or continue leaves main, worker, event and pointer alone; a stop touches the event.
  predicate SameThreads(s: Core, s': Core) {
    s'.main == s.main && s'.worker == s.worker && s'.controller == s.controller && s'.fault == s.fault
  }

  lemma HandlerDispatches(s: Core, current: Report)
    requires PhaseOf(s.handler, current).Resting? && (if Booted(s.worker) then PhaseAgrees(s, current) else QuietBoot(s, current))
    ensures var s' := HandlerNext(s, current);
            && s' == s.(handler := s'.handler) && Emits(s, HandlerStep) == Unreported
            && (if Booted(s.worker) then PhaseAgrees(s', current) else QuietBoot(s', current))
  {}

  lemma HandlerPauses(s: Core, current: Report)
    requires PhaseOf(s.handler, current).Pausing? && PhaseAgrees(s, current) && s.controller == Live
    ensures var s' := HandlerNext(s, current);
            SameThreads(s, s') && s'.event == s.event && PhaseAgrees(s', CurrentNext(s, current, HandlerStep))
  {}

  lemma HandlerContinues(s: Core, current: Report)
    requires PhaseOf(s.handler, current).Continuing? && PhaseAgrees(s, current) && s.controller == Live
    ensures var s' := HandlerNext(s, current);
            SameThreads(s, s') && s'.event == s.event && PhaseAgrees(s', CurrentNext(s, current, HandlerStep))
  {}

  lemma HandlerStops(s: Core, current: Report)
    requires PhaseOf(s.handler, current).Stopping? && PhaseAgrees(s, current) && s.event != NoEvent
    ensures var s' := HandlerNext(s, current);
            && SameThreads(s, s') && PhaseAgrees(s', CurrentNext(s, current, HandlerStep))
            && (s'.event == s.event || (s.event == Unset && s'.event == Signalled))
  {}

  lemma HandlerKeeps(s: Core, current: Report)
    requires Consistent(s, current)
    ensures Consistent(HandlerNext(s, current), CurrentNext(s, current, HandlerStep))
  {
    match PhaseOf(s.handler, current)
    case Resting(_) => HandlerDispatches(s, current);
    case Pausing(_) => HandlerPauses(s, current);
    case Continuing(_) => HandlerContinues(s, current);
    case Stopping(_) => HandlerStops(s, current);
  }

  lemma StepKeeps(s: Core, current: Report, a: Action)
    requires Consistent(s, current)
    ensures Consistent(CoreNext(s, current, a), CurrentNext(s, current, a))
  {
    match a
    case MainStep(ok) => MainKeeps(s, current, ok);
    case WorkerStep => WorkerKeeps(s, current);
    case HandlerStep => HandlerKeeps(s, current);
    case Deliver(c) =>
  }

  // ---- The reported history ------------------------------------------------------------------

  // What the current pause, continue or stop has added to Body(n).
  function Tail(p: Phase, emitted: bool): seq<Report> {
    var k := if emitted then [Stopped] else [];
    match p
    case Resting(level) =>
      if level == Paused then CYCLE[..3] else if level == Stopped then [StopPending, Stopped] + k else []
    case Pausing(i) => if i == 0 then [] else if i < 6 then CYCLE[..1] else CYCLE[..2]
    case Continuing(i) => if i == 0 then CYCLE[..3] else if i < 6 then CYCLE[..4] else CYCLE[..5]
    case Stopping(i) => if i == 0 then [] else [StopPending] + k
  }

  function Expected(worker: WorkerPc, p: Phase, current: Report, n: nat): seq<Report> {
    if Booted(worker) then Body(n) + Tail(p, Emitted(worker))
    else if current == Unreported then []
    else if current == Stopped then FAILED_START
    else [StartPending]
  }

  ghost predicate Inv(s: State, n: nat) {
    Consistent(s.core, s.log.current) && s.log.trace == Expected(s.core.worker, PhaseIn(s), s.log.current, n)
  }

  // ContDone completes a cycle.
  function CyclesAfter(s: Core, a: Action, n: nat): nat {
    if a == WorkerStep && s.worker == EmitStarted then 0
    else if a == HandlerStep && s.handler == ContDone then n + 1
    else n
  }

  function Appended(t: seq<Report>, r: Report): seq<Report> { if r == Unreported then t else t + [r] }

  lemma CycleCloses(n: nat)
    ensures Body(n) + CYCLE[..3] + CYCLE[3..] == Body(n + 1) <= Word(n + 1)
    ensures (Body(n) + CYCLE[..5]) + [Running] == Body(n + 1)
  {}

  lemma HandlerExtendsTail(s: Core, current: Report)
    requires Consistent(s, current) && Booted(s.worker) && s.handler != ContDone
    ensures Tail(PhaseOf(HandlerNext(s, current).handler, CurrentNext(s, current, HandlerStep)), Emitted(s.worker))
         == Appended(Tail(PhaseOf(s.handler, current), Emitted(s.worker)), Emits(s, HandlerStep))
  {}

  lemma WorkerExtendsTail(s: Core, current: Report)
    requires Consistent(s, current) && Booted(s.worker)
    ensures Tail(PhaseOf(s.handler, CurrentNext(s, current, WorkerStep)), Emitted(WorkerNext(s).worker))
         == Appended(Tail(PhaseOf(s.handler, current), Emitted(s.worker)), Emits(s, WorkerStep))
  {}

  predicate TraceExtends(s: Core, current: Report, a: Action, n: nat) {
    var (s', current') := (CoreNext(s, current, a), CurrentNext(s, current, a));
    Expected(s'.worker, PhaseOf(s'.handler, current'), current', CyclesAfter(s, a, n))
    == Appended(Expected(s.worker, PhaseOf(s.handler, current), current, n), Emits(s, a))
  }

  lemma WorkerExtendsTrace(s: Core, current: Report, n: nat)
    requires Consistent(s, current)
    ensures TraceExtends(s, current, WorkerStep, n)
  {
    if Booted(s.worker) {
      WorkerExtendsTail(s, current);
    } else if s.worker == EmitStarted {
      assert Body(0) + [] == [StartPending, Running];
    }
  }

  lemma HandlerExtendsTrace(s: Core, current: Report, n: nat)
    requires Consistent(s, current)
    ensures TraceExtends(s, current, HandlerStep, n)
  {
    if Booted(s.worker) {
      if s.handler == ContDone {
        CycleCloses(n);
        assert Body(n + 1) + [] == Body(n + 1);
      } else {
        HandlerExtendsTail(s, current);
      }
    }
  }

  lemma OthersExtendTrace(s: Core, current: Report, a: Action, n: nat)
    requires Consistent(s, current) && (a.MainStep? || a.Deliver?)
    ensures TraceExtends(s, current, a, n)
  {}

  lemma StepExtendsTrace(s: Core, current: Report, a: Action, n: nat)
    requires Consistent(s, current)
    ensures TraceExtends(s, current, a, n)
  {
    match a
    case WorkerStep => WorkerExtendsTrace(s, current, n);
    case HandlerStep => HandlerExtendsTrace(s, current, n);
    case _ => OthersExtendTrace(s, current, a, n);
  }

  lemma {:induction false} RunKeeps(acts: seq<Action>) returns (n: nat)
    ensures Inv(Run(acts), n)
  {
    if acts == [] {
      n := 0;
    } else {
      var s, a := Run(acts[..|acts| - 1]), acts[|acts| - 1];
      var m := RunKeeps(acts[..|acts| - 1]);
      n := CyclesAfter(s.core, a, m);
      StepKeeps(s.core, s.log.current, a);
      StepExtendsTrace(s.core, s.log.current, a, m);
    }
  }

  // ---- Results over every interleaving -------------------------------------------------------

  // Once a PAUSE or CONTINUE has passed its guard, the pointer is set and the controller alive
  // until the handler returns, the worker stays in its loop, and the call always takes effect:
  // the controller's own guard never turns it away.
  lemma HandlerFindsLiveController(acts: seq<Action>)
    ensures !Run(acts).core.fault
    ensures PhaseIn(Run(acts)).Pausing? || PhaseIn(Run(acts)).Continuing? ==>
              Run(acts).core.controller == Live && InLoop(Run(acts).core.worker) && Run(acts).core.gRunning
    ensures Run(acts).core.handler == PauseTest ==> Run(acts).core.controller == Live
    ensures Run(acts).core.handler == PauseGuard ==> Run(acts).core.mRunning && !Run(acts).core.mPaused
    ensures Run(acts).core.handler == ContGuard ==> Run(acts).core.mRunning && Run(acts).core.mPaused
  {
    var n := RunKeeps(acts);
  }

  predicate Accepts(c: Control, current: Report) {
    match c
    case Stop | Pause => current == Running
    case Continue => current == Paused
    case Other => false
  }

  // The status advertises STOP, PAUSE and CONTINUE in every state after START_PENDING. What is
  // advertised is acted on in one state each; in the others a control passes without a trace.
  lemma AdvertisedControl(acts: seq<Action>)
    requires Run(acts).core.handler.Dispatch?
    ensures var s, s', c := Run(acts), Run(acts + [HandlerStep]), Run(acts).core.handler.control;
            && (s'.core.handler != Idle <==> Accepts(c, s.log.current))
            && (Accepts(c, s.log.current) ==> s.log.acceptsControls)
            && (s'.core.handler == Idle ==> s' == s.(core := s.core.(handler := Idle)))
            && (s.log.acceptsControls && c != Other ==>
                  (s'.core.handler == Idle <==> s.log.current == Stopped || s.log.current == if c == Continue then Running else Paused))
  {
    RunSnoc(INITIAL, acts, HandlerStep);
    AdvertisedAt(acts);
  }

  lemma AdvertisedAt(acts: seq<Action>)
    requires PhaseIn(Run(acts)).Resting?
    ensures var current := Run(acts).log.current;
            Run(acts).log.acceptsControls <==> current == Running || current == Paused || current == Stopped
  {
    var n := RunKeeps(acts);
    CheckPointCounts(acts);
  }

  function StatusString(s: Core): string { ControllerEvents.StatusString(s.mRunning, s.mPaused) }

  // With the handler idle and the worker in its loop, every view of the service agrees with the
  // reported state. A service reported Stopped here is still running: the report is made before
  // the worker has noticed. Once torn down it says "Stopped", although stop() leaves m_paused alone.
  lemma ViewsAgree(acts: seq<Action>)
    ensures var s := Run(acts).core;
            s.handler == Idle && InLoop(s.worker) ==>
              match Run(acts).log.current
              case Running => StatusString(s) == "Running" && !s.gPaused && s.gRunning
              case Paused => StatusString(s) == "Paused" && s.gPaused && s.gRunning
              case Stopped => StatusString(s) == "Running" && !s.gPaused && !s.gRunning
              case _ => false
    ensures Rank(Run(acts).core.worker) >= 11 ==> StatusString(Run(acts).core) == "Stopped" && !Run(acts).core.gRunning
  {
    var n := RunKeeps(acts);
  }

  // Stopped does get reported, and STOP handled, while the controller still runs.
  lemma StoppedWhileRunning()
    ensures exists acts :: && Run(acts).core.handler == Idle && Run(acts).log.current == Stopped
                           && Run(acts).core.mRunning && Run(acts).core.controller == Live
  {
    var r := CyclesRun(0);
    StopRun(r);
    ControlledReachable(r, Stop, 5);
    var acts :| Run(acts) == Controlled(r, Stop, 5);
    var n := RunKeeps(acts);
  }

  lemma InvIsLawful(s: State, n: nat)
    requires Inv(s, n)
    ensures Lawful(s.log.trace)
  {
    if Booted(s.core.worker) {
      var t := Tail(PhaseIn(s), Emitted(s.core.worker));
      if t <= [StopPending, Stopped, Stopped] {
        assert s.log.trace <= Word(n);
      } else {
        assert t <= CYCLE;
        CycleCloses(n);
        assert s.log.trace <= Word(n + 1);
      }
    }
  }

  // ---- Every lawful history happens ----------------------------------------------------------

  function Repeat(s: State, a: Action, k: nat): State {
    if k == 0 then s else Step(Repeat(s, a, k - 1), a)
  }

  ghost predicate Reachable(s: State) { exists acts :: Run(acts) == s }

  lemma StepReachable(s: State, a: Action)
    requires Reachable(s)
    ensures Reachable(Step(s, a))
  {
    var acts :| Run(acts) == s;
    RunSnoc(INITIAL, acts, a);
    assert Run(acts + [a]) == Step(s, a);
  }

  lemma {:induction false} RepeatReachable(s: State, a: Action, k: nat)
    requires Reachable(s)
    ensures Reachable(Repeat(s, a, k))
  {
    if k > 0 {
      RepeatReachable(s, a, k - 1);
      StepReachable(Repeat(s, a, k - 1), a);
    }
  }

  // A service at rest, its worker about to check g_running.
  predicate AtRest(s: State, level: Report) {
    && s.core == Core(AwaitWorker, CheckFlag, Idle, true, level == Paused, Unset, Live, true, level == Paused, false)
    && s.log.current == level
  }

  function Booting(): State { Repeat(Repeat(INITIAL, MainStep(true), 4), WorkerStep, 5) }

  function Controlled(s: State, c: Control, steps: nat): State { Repeat(Step(s, Deliver(c)), HandlerStep, steps) }

  lemma MainBootRun()
    ensures Repeat(INITIAL, MainStep(true), 4).core == INITIAL.core.(main := AwaitWorker, event := Unset, worker := NewController)
    ensures Repeat(INITIAL, MainStep(true), 4).log.trace == [StartPending]
  {
    assert Repeat(INITIAL, MainStep(true), 0) == INITIAL;
    assert Repeat(INITIAL, MainStep(true), 1).core == INITIAL.core.(main := ReportStart);
    assert Repeat(INITIAL, MainStep(true), 2).core == INITIAL.core.(main := CreateEvent);
    assert Repeat(INITIAL, MainStep(true), 3).core == INITIAL.core.(main := CreateThread, event := Unset);
  }

  lemma BootRun()
    ensures AtRest(Booting(), Running) && Booting().log.trace == Body(0)
  {
    var s1 := Repeat(INITIAL, MainStep(true), 4);
    MainBootRun();
    WorkerBootRun(s1);
  }

  lemma WorkerBootRun(s: State)
    requires s.core.worker == NewController
    ensures Repeat(s, WorkerStep, 5).core == s.core.(worker := CheckFlag, controller := Live, mRunning := true, mPaused := false)
    ensures Repeat(s, WorkerStep, 5).log == Logged(s.log, Running)
  {
    var made := s.core.(controller := Live, mRunning := false, mPaused := false);
    assert Repeat(s, WorkerStep, 0) == s;
    assert Repeat(s, WorkerStep, 1) == State(made.(worker := StartGuard), s.log);
    assert Repeat(s, WorkerStep, 2) == State(made.(worker := SetRunning), s.log);
    assert Repeat(s, WorkerStep, 3) == State(made.(worker := ClearPaused, mRunning := true), s.log);
    assert Repeat(s, WorkerStep, 4) == State(made.(worker := EmitStarted, mRunning := true), s.log);
  }

  lemma PauseEnters(r: State)
    requires AtRest(r, Running)
    ensures Controlled(r, Pause, 4).core == r.core.(handler := PauseGuard, gPaused := true)
    ensures Controlled(r, Pause, 4).log.trace == r.log.trace + [PausePending]
  {
    var s := Step(r, Deliver(Pause));
    assert Repeat(s, HandlerStep, 0).core.handler == Dispatch(Pause);
    assert Repeat(s, HandlerStep, 1).core.handler == PauseReport;
    assert Repeat(s, HandlerStep, 2).core.handler == PauseFlag;
    assert Repeat(s, HandlerStep, 3).core.handler == PauseTest;
  }

  lemma PauseRun(r: State)
    requires AtRest(r, Running)
    ensures AtRest(Controlled(r, Pause, 8), Paused)
    ensures Controlled(r, Pause, 8).log.trace == r.log.trace + CYCLE[..3]
  {
    PauseEnters(r);
    var s := Step(r, Deliver(Pause));
    assert Repeat(s, HandlerStep, 5).core.handler == PauseSet;
    assert Repeat(s, HandlerStep, 6).core.handler == PauseEmit;
    assert Repeat(s, HandlerStep, 7).core.handler == PauseDone;
  }

  lemma ContinueEnters(r: State)
    requires AtRest(r, Paused)
    ensures Controlled(r, Continue, 4).core == r.core.(handler := ContGuard, gPaused := false)
    ensures Controlled(r, Continue, 4).log.trace == r.log.trace + [ContinuePending]
  {
    var s := Step(r, Deliver(Continue));
    assert Repeat(s, HandlerStep, 0).core.handler == Dispatch(Continue);
    assert Repeat(s, HandlerStep, 1).core.handler == ContReport;
    assert Repeat(s, HandlerStep, 2).core.handler == ContFlag;
    assert Repeat(s, HandlerStep, 3).core.handler == ContTest;
  }

  lemma ContinueRun(r: State)
    requires AtRest(r, Paused)
    ensures AtRest(Controlled(r, Continue, 8), Running)
    ensures Controlled(r, Continue, 8).log.trace == r.log.trace + CYCLE[3..]
  {
    ContinueEnters(r);
    var s := Step(r, Deliver(Continue));
    assert Repeat(s, HandlerStep, 5).core.handler == ContSet;
    assert Repeat(s, HandlerStep, 6).core.handler == ContEmit;
    assert Repeat(s, HandlerStep, 7).core.handler == ContDone;
  }

  lemma StopRun(r: State)
    requires AtRest(r, Running)
    ensures Controlled(r, Stop, 3).core == r.core.(handler := StopSignal, gRunning := false)
    ensures Controlled(r, Stop, 5).core == r.core.(gRunning := false, event := Signalled)
    ensures Controlled(r, Stop, 5).log.trace == r.log.trace + [StopPending, Stopped]
  {
    var s := Step(r, Deliver(Stop));
    assert Repeat(s, HandlerStep, 0).core.handler == Dispatch(Stop);
    assert Repeat(s, HandlerStep, 1).core.handler == StopReport;
    assert Repeat(s, HandlerStep, 2).core.handler == StopFlag;
    assert Repeat(s, HandlerStep, 3).core.handler == StopSignal;
    assert Repeat(s, HandlerStep, 4).core.handler == StopDone;
  }

  // A condemned worker at the top of its loop leaves it, stops the controller and deletes it.
  lemma DanglingRun(s: State)
    requires s.core.worker == CheckFlag && !s.core.gRunning && s.core.mRunning
    ensures Repeat(s, WorkerStep, 4).log.trace == s.log.trace + [Stopped]
    ensures Repeat(s, WorkerStep, 5).core == s.core.(worker := ClearPointer, controller := Dangling, mRunning := false)
  {
    var stopped := s.core.(mRunning := false);
    assert Repeat(s, WorkerStep, 0) == s;
    assert Repeat(s, WorkerStep, 1) == State(s.core.(worker := StopGuard), s.log);
    assert Repeat(s, WorkerStep, 2) == State(s.core.(worker := ClearRunning), s.log);
    assert Repeat(s, WorkerStep, 3) == State(stopped.(worker := EmitStopped), s.log);
    assert Repeat(s, WorkerStep, 4) == State(stopped.(worker := Delete), Logged(s.log, Stopped));
  }

  lemma TeardownRun(s: State)
    requires s.core.worker == CheckFlag && !s.core.gRunning && s.core.mRunning
    ensures Repeat(s, WorkerStep, 4).log.trace == s.log.trace + [Stopped]
    ensures Repeat(s, WorkerStep, 6).core == s.core.(worker := Exited, controller := Null, mRunning := false)
  {
    DanglingRun(s);
  }

  lemma ControlledReachable(s: State, c: Control, steps: nat)
    requires Reachable(s)
    ensures Reachable(Controlled(s, c, steps))
  {
    StepReachable(s, Deliver(c));
    RepeatReachable(Step(s, Deliver(c)), HandlerStep, steps);
  }

  lemma {:induction false} CyclesRun(n: nat) returns (s: State)
    ensures Reachable(s) && AtRest(s, Running) && s.log.trace == Body(n)
  {
    if n == 0 {
      s := Booting();
      BootRun();
      assert Run([]) == INITIAL;
      RepeatReachable(INITIAL, MainStep(true), 4);
      RepeatReachable(Repeat(INITIAL, MainStep(true), 4), WorkerStep, 5);
    } else {
      var r := CyclesRun(n - 1);
      var paused := Controlled(r, Pause, 8);
      PauseRun(r);
      ControlledReachable(r, Pause, 8);
      s := Controlled(paused, Continue, 8);
      ContinueRun(paused);
      ControlledReachable(paused, Continue, 8);
      CycleCloses(n - 1);
    }
  }

  lemma WordRun(n: nat) returns (s: State)
    ensures Reachable(s) && s.log.trace == Word(n)
  {
    var r := CyclesRun(n);
    var stopped := Controlled(r, Stop, 5);
    StopRun(r);
    ControlledReachable(r, Stop, 5);
    s := Repeat(stopped, WorkerStep, 4);
    TeardownRun(stopped);
    RepeatReachable(stopped, WorkerStep, 4);
  }

  lemma FailedRun() returns (s: State)
    ensures Reachable(s) && s.log.trace == FAILED_START
  {
    assert Run([]) == INITIAL;
    var s2 := Repeat(INITIAL, MainStep(true), 2);
    RepeatReachable(INITIAL, MainStep(true), 2);
    assert s2.core == INITIAL.core.(main := CreateEvent) && s2.log.trace == [StartPending];
    var s3 := Step(s2, MainStep(false));
    StepReachable(s2, MainStep(false));
    s := Step(s3, MainStep(true));
    StepReachable(s3, MainStep(true));
  }

  // A step reports at most once, so every prefix of a trace is the trace of an earlier state.
  lemma {:induction false} PrefixRun(acts: seq<Action>, t: seq<Report>)
    requires t <= Run(acts).log.trace
    ensures exists before :: Run(before).log.trace == t
  {
    if t != Run(acts).log.trace {
      var before := acts[..|acts| - 1];
      assert Run(acts) == Step(Run(before), acts[|acts| - 1]);
      PrefixRun(before, t);
    }
  }

  // The reported histories are exactly the prefixes of the failed start and of Word(0), Word(1), ...
  lemma TraceLanguage(t: seq<Report>)
    ensures (exists acts :: Run(acts).log.trace == t) <==> Lawful(t)
  {
    if acts :| Run(acts).log.trace == t {
      var n := RunKeeps(acts);
      InvIsLawful(Run(acts), n);
    }
    if Lawful(t) {
      LawfulHappens(t);
    }
  }

  lemma LawfulHappens(t: seq<Report>)
    requires Lawful(t)
    ensures exists acts :: Run(acts).log.trace == t
  {
    var s: State;
    if t <= FAILED_START {
      s := FailedRun();
    } else {
      var n :| t <= Word(n);
      s := WordRun(n);
    }
    var acts :| Run(acts) == s;
    PrefixRun(acts, t);
  }

  // In particular, after Stopped nothing but Stopped is ever reported.
  lemma StoppedIsFinal(acts: seq<Action>, i: nat, j: nat)
    requires i < j < |Run(acts).log.trace| && Run(acts).log.trace[i] == Stopped
    ensures Run(acts).log.trace[j] == Stopped
  {
    var t := Run(acts).log.trace;
    TraceLanguage(t);
    if !(t <= FAILED_START) {
      var n :| t <= Word(n);
      BodyNeverStops(n);
      assert t[i] == Word(n)[i] && t[j] == Word(n)[j];
      assert Word(n)[i] !in Body(n);
      assert i >= |Body(n)|;
    }
  }

  lemma {:induction false} BodyNeverStops(n: nat)
    ensures Stopped !in Body(n)
  {
    if n > 0 {
      BodyNeverStops(n - 1);
      assert Body(n) == Body(n - 1) + CYCLE;
    }
  }

  // When ServiceMain has returned after a start and no control is being handled, the whole
  // history has been reported: one complete word.
  lemma CompleteHistory(acts: seq<Action>)
    requires Run(acts).core.main == Returned && Run(acts).core.handler == Idle
    ensures exists n :: Run(acts).log.trace == Word(n)
  {
    var n := RunKeeps(acts);
    assert Run(acts).log.trace == Word(n);
  }

  // The last of the actions in `more`.
  lemma LastStep(acts: seq<Action>, more: seq<Action>)
    requires more != []
    ensures var (most, a) := (more[..|more| - 1], more[|more| - 1]);
            && Run(acts + more) == Step(Run(acts + most), a)
            && Consistent(Run(acts + most).core, Run(acts + most).log.current)
            && MainSteps(more) == MainSteps(most) + (if a.MainStep? then 1 else 0)
            && WorkerSteps(more) == WorkerSteps(most) + (if a == WorkerStep then 1 else 0)
  {
    var most, a := more[..|more| - 1], more[|more| - 1];
    assert more == most + [a] && acts + more == (acts + most) + [a];
    StepsSnoc(most, a);
    RunSnoc(INITIAL, acts + most, a);
    var n := RunKeeps(acts + most);
  }

  // ---- Shutting down -------------------------------------------------------------------------

  // Worker steps left until it exits, once g_running is false.
  function StepsToExit(w: WorkerPc): nat {
    match w
    case AwaitEvent => 8 case ProcessEvents => 7 case CheckFlag => 6
    case StopGuard => 5 case ClearRunning => 4 case EmitStopped => 3
    case Delete => 2 case ClearPointer => 1 case _ => 0
  }

  lemma StepApproachesExit(s: Core, current: Report, a: Action)
    requires Consistent(s, current) && !s.gRunning
    ensures var s' := CoreNext(s, current, a);
            && !s'.gRunning
            && StepsToExit(s'.worker) <= StepsToExit(s.worker)
            && (a == WorkerStep ==> StepsToExit(s'.worker) == 0 || StepsToExit(s'.worker) < StepsToExit(s.worker))
  {}

  // After STOP has cleared g_running, whatever the other threads do and even if the event is
  // missed, eight steps of the worker end it, with the controller stopped and deleted.
  lemma {:induction false} WorkerExits(acts: seq<Action>, more: seq<Action>)
    requires !Run(acts).core.gRunning
    ensures !Run(acts + more).core.gRunning
    ensures StepsToExit(Run(acts + more).core.worker) + WorkerSteps(more) <= 8 || StepsToExit(Run(acts + more).core.worker) == 0
    ensures WorkerSteps(more) >= 8 ==>
              Run(acts + more).core.worker == Exited && Run(acts + more).core.controller == Null
              && StatusString(Run(acts + more).core) == "Stopped"
    decreases |more|
  {
    if more == [] {
      assert acts + more == acts;
    } else {
      var most, a := more[..|more| - 1], more[|more| - 1];
      LastStep(acts, more);
      WorkerExits(acts, most);
      var s := Run(acts + most);
      StepApproachesExit(s.core, s.log.current, a);
    }
    var n := RunKeeps(acts + more);
    CondemnedIsBooted(Run(acts + more).core, Run(acts + more).log.current);
  }

  lemma CondemnedIsBooted(s: Core, current: Report)
    requires Consistent(s, current) && !s.gRunning
    ensures Booted(s.worker)
    ensures StepsToExit(s.worker) == 0 ==> s.worker == Exited && s.controller == Null && StatusString(s) == "Stopped"
  {}

  // Worker steps left until m_running = false, once STOP has been handled.
  function StepsTillDown(w: WorkerPc): nat {
    match w
    case ProcessEvents => 4 case CheckFlag | AwaitEvent => 3
    case StopGuard => 2 case ClearRunning => 1 case _ => 0
  }

  lemma StepApproachesDown(s: Core, current: Report, a: Action)
    requires Consistent(s, current) && PhaseOf(s.handler, current) == Resting(Stopped)
    ensures var s' := CoreNext(s, current, a);
            && PhaseOf(s'.handler, CurrentNext(s, current, a)) == Resting(Stopped)
            && StepsTillDown(s'.worker) == StepsTillDown(s.worker) - if a == WorkerStep && StepsTillDown(s.worker) > 0 then 1 else 0
  {}

  lemma RunningTillDown(s: Core, current: Report)
    requires Consistent(s, current) && PhaseOf(s.handler, current) == Resting(Stopped)
    ensures s.mRunning <==> StepsTillDown(s.worker) > 0
  {}

  // A service that reports Stopped, with no control being handled, does so for good; but its
  // controller runs for exactly so many more steps of the worker, whatever the others do.
  lemma {:induction false} StoppedBecomesTrue(acts: seq<Action>, more: seq<Action>)
    requires PhaseIn(Run(acts)) == Resting(Stopped)
    ensures PhaseIn(Run(acts + more)) == Resting(Stopped)
    ensures var till := StepsTillDown(Run(acts).core.worker);
            && StepsTillDown(Run(acts + more).core.worker) == (if WorkerSteps(more) < till then till - WorkerSteps(more) else 0)
            && (Run(acts + more).core.mRunning <==> WorkerSteps(more) < till)
    decreases |more|
  {
    if more == [] {
      assert acts + more == acts;
    } else {
      var most, a := more[..|more| - 1], more[|more| - 1];
      LastStep(acts, more);
      StoppedBecomesTrue(acts, most);
      StepApproachesDown(Run(acts + most).core, Run(acts + most).log.current, a);
    }
    var n := RunKeeps(acts + more);
    RunningTillDown(Run(acts + more).core, Run(acts + more).log.current);
  }

  function StoppedReports(t: seq<Report>): nat { multiset(t)[Stopped] }

  // What the reports tell of a service that has come up, while no control is being handled: after
  // two reports of Stopped the controller is down; after one it runs or is about to report; before
  // that it runs.
  lemma ReportsTellController(acts: seq<Action>)
    requires PhaseIn(Run(acts)).Resting? && Running in Run(acts).log.trace
    ensures var (s, stopped) := (Run(acts).core, StoppedReports(Run(acts).log.trace));
            && stopped <= 2
            && (stopped == 0 ==> s.mRunning)
            && (stopped == 1 ==> s.mRunning || s.worker == EmitStopped)
            && (stopped == 2 ==> !s.mRunning)
  {
    var n := RunKeeps(acts);
    CountStopped(Run(acts), n);
  }

  lemma CountStopped(s: State, n: nat)
    requires Inv(s, n) && PhaseIn(s).Resting? && Running in s.log.trace
    ensures Booted(s.core.worker) && PhaseAgrees(s.core, s.log.current)
    ensures StoppedReports(s.log.trace) == if s.log.current != Stopped then 0 else if Emitted(s.core.worker) then 2 else 1
  {
    BodyNeverStops(n);
    StoppedAfter(Body(n), Tail(PhaseIn(s), Emitted(s.core.worker)));
    StoppedInTail(s.log.current, Emitted(s.core.worker));
  }

  lemma StoppedAfter(b: seq<Report>, t: seq<Report>)
    requires Stopped !in b
    ensures StoppedReports(b + t) == StoppedReports(t)
  {
    assert multiset(b + t) == multiset(b) + multiset(t);
  }

  lemma StoppedInTail(current: Report, emitted: bool)
    ensures StoppedReports(Tail(Resting(current), emitted)) == if current != Stopped then 0 else if emitted then 2 else 1
  {
    var stop: seq<Report> := [StopPending, Stopped];
    assert CYCLE[..3] == [PausePending, Paused, Paused];
    assert multiset(CYCLE[..3]) == multiset{PausePending, Paused, Paused};
    assert multiset(stop) == multiset{StopPending, Stopped};
    assert multiset(stop + [Stopped]) == multiset(stop) + multiset([Stopped]);
    assert multiset(stop + []) == multiset(stop) + multiset([]);
  }

  // The flags go first: g_paused changes before the controller's, and the event is not signalled
  // before g_running is cleared.
  lemma FlagsLead(acts: seq<Action>)
    ensures var (s, current) := (Run(acts).core, Run(acts).log.current);
            && (s.gPaused && !s.mPaused ==> current == PausePending)
            && (!s.gPaused && s.mPaused ==> current == ContinuePending)
            && (s.event == Signalled ==> !s.gRunning)
  {
    var n := RunKeeps(acts);
  }

  // Between delete and the assignment of null the pointer dangles.
  lemma PointerDangles()
    ensures exists acts :: Run(acts).core.controller == Dangling && !Run(acts).core.mRunning
  {
    var r := CyclesRun(0);
    var stopped := Controlled(r, Stop, 5);
    StopRun(r);
    ControlledReachable(r, Stop, 5);
    DanglingRun(stopped);
    RepeatReachable(stopped, WorkerStep, 5);
    DanglingWitness(Repeat(stopped, WorkerStep, 5));
  }

  lemma DanglingWitness(s: State)
    requires Reachable(s) && s.core.controller == Dangling && !s.core.mRunning
    ensures exists acts :: Run(acts).core.controller == Dangling && !Run(acts).core.mRunning
  {
    var acts :| Run(acts) == s;
  }

  // The stop event is not always open where STOP signals it: the worker can leave on g_running
  // alone and ServiceMain close the handle first. It is open exactly as long as ServiceMain has
  // not passed its CloseHandle, and the other case does happen.
  lemma EventOpenIff(acts: seq<Action>)
    requires Run(acts).core.handler == StopSignal
    ensures Run(acts).core.event == Unset <==> Run(acts).core.main != Returned
    ensures Run(acts).core.event == Closed <==> Run(acts).core.main == Returned
  {
    var n := RunKeeps(acts);
  }

  // A start that fails leaves no event open behind.
  lemma FailedStartClosesEvent(acts: seq<Action>)
    requires Run(acts).core.main == Failed
    ensures Run(acts).core.event == NoEvent || Run(acts).core.event == Closed
  {
    var n := RunKeeps(acts);
  }

  lemma SignalMayFindEventClosed()
    ensures exists acts :: Run(acts).core.handler == StopSignal && Run(acts).core.event == Closed
  {
    var r := CyclesRun(0);
    var stopping := Controlled(r, Stop, 3);
    StopRun(r);
    ControlledReachable(r, Stop, 3);
    var torn := Repeat(stopping, WorkerStep, 6);
    TeardownRun(stopping);
    RepeatReachable(stopping, WorkerStep, 6);
    RepeatReachable(torn, MainStep(true), 2);
    CloseRun(torn);
    ClosedWitness(Repeat(torn, MainStep(true), 2));
  }

  // Since STOP was about to clear g_running, the worker needs six steps to end and ServiceMain two
  // more to close the handle: after fewer of either, it is open.
  lemma EventOpenFor(acts: seq<Action>, more: seq<Action>)
    requires Run(acts).core.handler == StopFlag
    ensures MainSteps(more) < 2 || WorkerSteps(more) < 6 ==> Run(acts + more).core.event != Closed
    ensures (MainSteps(more) < 2 || WorkerSteps(more) < 6) && Run(acts + more).core.handler == StopSignal ==>
              Run(acts + more).core.event == Unset
  {
    ExitTakesSteps(acts, more);
    var n := RunKeeps(acts + more);
    ClosedIsLate(Run(acts + more).core, Run(acts + more).log.current);
  }

  lemma ClosedIsLate(s: Core, current: Report)
    requires Consistent(s, current) && Booted(s.worker)
    ensures s.event == Closed ==> StepsToReturn(s.main) == 0 && StepsToExit(s.worker) == 0
    ensures s.handler == StopSignal && s.event != Closed ==> s.event == Unset
  {}

  lemma {:induction false} ExitTakesSteps(acts: seq<Action>, more: seq<Action>)
    requires Run(acts).core.handler == StopFlag
    ensures var s := Run(acts + more).core;
            && Booted(s.worker)
            && StepsToExit(s.worker) + WorkerSteps(more) >= 6 && StepsToReturn(s.main) + MainSteps(more) >= 2
    decreases |more|
  {
    if more == [] {
      assert acts + more == acts;
      var n := RunKeeps(acts);
      FlagFindsLoop(Run(acts).core, Run(acts).log.current);
    } else {
      var most, a := more[..|more| - 1], more[|more| - 1];
      LastStep(acts, more);
      ExitTakesSteps(acts, most);
      StepIsSmall(Run(acts + most).core, Run(acts + most).log.current, a);
    }
  }

  lemma FlagFindsLoop(s: Core, current: Report)
    requires Consistent(s, current) && s.handler == StopFlag
    ensures InLoop(s.worker) && s.main == AwaitWorker
  {}

  lemma StepIsSmall(s: Core, current: Report, a: Action)
    requires Consistent(s, current) && Booted(s.worker)
    ensures var s' := CoreNext(s, current, a);
            && Booted(s'.worker)
            && (StepsToExit(s'.worker) >= 5 || StepsToExit(s'.worker) + (if a == WorkerStep then 1 else 0) >= StepsToExit(s.worker))
            && (a != WorkerStep ==> s'.worker == s.worker)
            && StepsToReturn(s'.main) + (if a.MainStep? then 1 else 0) >= StepsToReturn(s.main)
  {}

  // What is left of the way to the CloseHandle, which the worker goes first and ServiceMain after it.
  function Remaining(worker: nat, main: nat, acts: seq<Action>): (r: (nat, nat))
    ensures r.0 <= worker && r.1 <= main
  {
    if acts == [] then (worker, main)
    else
      var (w, m) := Remaining(worker, main, acts[..|acts| - 1]);
      match acts[|acts| - 1]
      case WorkerStep => (if w > 0 then w - 1 else 0, m)
      case MainStep(_) => (w, if w == 0 && m > 0 then m - 1 else m)
      case _ => (w, m)
  }

  // With STOP about to signal the event, what the other threads still do decides: its handle is
  // closed exactly if they cover that way.
  lemma EventClosedIff(acts: seq<Action>, more: seq<Action>)
    requires Run(acts).core.handler == StopSignal && HandlerStep !in more
    ensures var s, s' := Run(acts).core, Run(acts + more).core;
            && s'.handler == StopSignal
            && (s'.event == Closed <==> Remaining(StepsToExit(s.worker), StepsToReturn(s.main), more).1 == 0)
            && (s'.event == Closed || s'.event == Unset)
  {
    RemainingIsLeft(acts, more);
    var n := RunKeeps(acts + more);
    ClosedAtTheEnd(Run(acts + more).core, Run(acts + more).log.current);
  }

  lemma {:induction false} RemainingIsLeft(acts: seq<Action>, more: seq<Action>)
    requires Run(acts).core.handler == StopSignal && HandlerStep !in more
    ensures var s, s' := Run(acts).core, Run(acts + more).core;
            && s'.handler == StopSignal
            && (StepsToExit(s'.worker), StepsToReturn(s'.main)) == Remaining(StepsToExit(s.worker), StepsToReturn(s.main), more)
    decreases |more|
  {
    if more == [] {
      assert acts + more == acts;
    } else {
      var most, a := more[..|more| - 1], more[|more| - 1];
      LastStep(acts, more);
      assert a in more;
      RemainingIsLeft(acts, most);
      StepWhileSignalling(Run(acts + most).core, Run(acts + most).log.current, a);
    }
  }

  lemma StepWhileSignalling(s: Core, current: Report, a: Action)
    requires Consistent(s, current) && s.handler == StopSignal && a != HandlerStep
    ensures var s' := CoreNext(s, current, a);
            && s'.handler == StopSignal
            && StepsToExit(s'.worker) == (if a == WorkerStep && StepsToExit(s.worker) > 0 then StepsToExit(s.worker) - 1 else StepsToExit(s.worker))
            && StepsToReturn(s'.main) == (if a.MainStep? && StepsToExit(s.worker) == 0 && StepsToReturn(s.main) > 0 then StepsToReturn(s.main) - 1
                                          else StepsToReturn(s.main))
  {}

  lemma ClosedAtTheEnd(s: Core, current: Report)
    requires Consistent(s, current) && s.handler == StopSignal
    ensures s.event == Closed <==> StepsToReturn(s.main) == 0
    ensures s.event == Closed || s.event == Unset
  {}

  lemma CloseRun(s: State)
    requires s.core.main == AwaitWorker && s.core.worker == Exited
    ensures Repeat(s, MainStep(true), 2).core == s.core.(main := Returned, event := Closed)
  {
    assert Repeat(s, MainStep(true), 1).core == s.core.(main := CloseEvent);
  }

  lemma ClosedWitness(s: State)
    requires Reachable(s) && s.core.handler == StopSignal && s.core.event == Closed
    ensures exists acts :: Run(acts).core.handler == StopSignal && Run(acts).core.event == Closed
  {
    var acts :| Run(acts) == s;
  }

  // Once STOP has been handled, whoever still waits for the event is woken by it.
  lemma StopSignalsEvent(acts: seq<Action>)
    requires Run(acts).core.handler == Idle && InLoop(Run(acts).core.worker) && !Run(acts).core.gRunning
    ensures Run(acts).core.event == Signalled
    ensures Run(acts).core.worker == AwaitEvent ==> WorkerNext(Run(acts).core).worker == StopGuard
  {
    var n := RunKeeps(acts);
  }

  function StepsToReturn(main: MainPc): nat {
    match main case AwaitWorker => 2 case CloseEvent => 1 case _ => 0
  }

  lemma StepApproachesReturn(s: Core, current: Report, a: Action)
    requires Consistent(s, current) && s.worker == Exited
    ensures var s' := CoreNext(s, current, a);
            && s'.worker == Exited
            && StepsToReturn(s'.main) <= StepsToReturn(s.main)
            && (a.MainStep? ==> StepsToReturn(s'.main) == 0 || StepsToReturn(s'.main) < StepsToReturn(s.main))
  {}

  // And once the worker has ended, two steps of ServiceMain end the service.
  lemma {:induction false} ServiceReturns(acts: seq<Action>, more: seq<Action>)
    requires Run(acts).core.worker == Exited
    ensures Run(acts + more).core.worker == Exited
    ensures StepsToReturn(Run(acts + more).core.main) + MainSteps(more) <= 2 || StepsToReturn(Run(acts + more).core.main) == 0
    ensures MainSteps(more) >= 2 ==> Run(acts + more).core.main == Returned && Run(acts + more).core.event == Closed
    decreases |more|
  {
    if more == [] {
      assert acts + more == acts;
    } else {
      var most, a := more[..|more| - 1], more[|more| - 1];
      LastStep(acts, more);
      ServiceReturns(acts, most);
      StepApproachesReturn(Run(acts + most).core, Run(acts + most).log.current, a);
    }
    var n := RunKeeps(acts + more);
    if StepsToReturn(Run(acts + more).core.main) == 0 {
      ExitedReturns(Run(acts + more).core);
    }
  }

  lemma ExitedReturns(s: Core)
    requires ThreadsAgree(s) && s.worker == Exited && StepsToReturn(s.main) == 0
    ensures s.main == Returned && s.event == Closed
  {}

  // ---- What ReportServiceStatus writes -------------------------------------------------------

  function PendingReports(t: seq<Report>): nat {
    if t == [] then 0
    else PendingReports(t[..|t| - 1]) + if t[|t| - 1] == Running || t[|t| - 1] == Stopped then 0 else 1
  }

  // The check point of a pending report is its number among the pending reports, modulo a DWORD;
  // controls are accepted from the first report after StartPending on.
  lemma {:induction false} CheckPointCounts(acts: seq<Action>)
    ensures Run(acts).log.nextCheckPoint == (1 + PendingReports(Run(acts).log.trace)) % 0x1_0000_0000
    ensures Run(acts).log.checkPoint == if Run(acts).log.trace == [] || Run(acts).log.current in {Running, Stopped} then 0
                                        else PendingReports(Run(acts).log.trace) % 0x1_0000_0000
    ensures Run(acts).log.acceptsControls <==> Run(acts).log.trace != [] && Run(acts).log.current != StartPending
  {
    if acts != [] {
      var s, a := Run(acts[..|acts| - 1]), acts[|acts| - 1];
      CheckPointCounts(acts[..|acts| - 1]);
      assert Run(acts).log == LogNext(s.log, Emits(s.core, a));
      if Emits(s.core, a) != Unreported {
        LoggedCounts(s.log, Emits(s.core, a));
      }
    }
  }

  lemma LoggedCounts(log: Log, r: Report)
    requires log.nextCheckPoint == (1 + PendingReports(log.trace)) % DWORD_RANGE
    ensures PendingReports(Logged(log, r).trace) == PendingReports(log.trace) + if Final(r) then 0 else 1
    ensures Logged(log, r).nextCheckPoint == (1 + PendingReports(Logged(log, r).trace)) % DWORD_RANGE
    ensures !Final(r) ==> Logged(log, r).checkPoint == PendingReports(Logged(log, r).trace) % DWORD_RANGE
  {
    assert (log.trace + [r])[..|log.trace|] == log.trace;
  }
}
