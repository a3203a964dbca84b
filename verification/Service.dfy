/** service.cpp as it stands: ServiceMain, the worker thread and the control handler, statement by
    statement, over the globals as fields. After every access to shared data the other threads run,
    any number of their steps in any order. Each method is proved to take only steps that
    ServiceProtocol allows its thread, so a process all of whose threads run this code is in a state
    of the protocol throughout, and every result about the protocol's runs is one about this code.
 */
module Service {
  import opened ServiceProtocol

  // A step of another thread than the one that takes `own`. The dispatcher, which waits for the
  // handler to return, counts as the handler's thread.
  predicate OfAnother(own: Action, a: Action) {
    match own
    case MainStep(_) => !a.MainStep?
    case WorkerStep => a != WorkerStep
    case _ => a != HandlerStep && !a.Deliver?
  }

  lemma {:induction false} RunAppends(before: seq<Action>, more: seq<Action>)
    ensures Run(before + more) == RunFrom(Run(before), more)
    decreases |more|
  {
    if more == [] {
      assert before + more == before;
    } else {
      assert (before + more)[..|before + more| - 1] == before + more[..|more| - 1];
      RunAppends(before, more[..|more| - 1]);
    }
  }

  lemma {:induction false} OthersKeep(before: seq<Action>, own: Action, others: seq<Action>)
    requires forall a | a in others :: OfAnother(own, a)
    requires own == WorkerStep ==> Run(before).core.worker != NotCreated
    ensures Keeps(own, Run(before).core, Run(before + others).core)
  {
    if others == [] {
      assert before + others == before;
    } else {
      var most, a := others[..|others| - 1], others[|others| - 1];
      assert a in others && before + others == (before + most) + [a];
      OthersKeep(before, own, most);
      RunSnoc(INITIAL, before + most, a);
      var n := RunKeeps(before + most);
      AnotherKeeps(Run(before + most).core, Run(before + most).log.current, own, a);
    }
  }

  lemma OthersFollow(before: seq<Action>, own: Action, others: seq<Action>, now: State)
    requires now == Step(Run(before), own) && forall a | a in others :: OfAnother(own, a)
    requires own == WorkerStep ==> now.core.worker != NotCreated
    ensures RunFrom(now, others) == Run(before + [own] + others)
    ensures var s' := RunFrom(now, others).core; Keeps(own, now.core, s')
  {
    RunSnoc(INITIAL, before, own);
    OthersKeep(before + [own], own, others);
    RunAppends(before + [own], others);
  }

  lemma OwnSteps(before: seq<Action>, own: Action, others: seq<Action>)
    requires forall a | a in others :: OfAnother(own, a)
    ensures own.MainStep? ==> MainSteps(before + [own] + others) == MainSteps(before) + 1
    ensures own == WorkerStep ==> WorkerSteps(before + [own] + others) == WorkerSteps(before) + 1
    ensures own == HandlerStep ==> HandlerSteps(before + [own] + others) == HandlerSteps(before) + 1
  {
    StepsSnoc(before, own);
    StepsAdd(before + [own], others);
    assert own !in others;
    assert own.MainStep? ==> MainStep(true) !in others && MainStep(false) !in others;
  }

  // Where a thread stands is its own business, and the flags are the handler's.
  predicate Keeps(own: Action, s: Core, s': Core) {
    && (own.MainStep? ==> s'.main == s.main)
    && (own == WorkerStep ==> s'.worker == s.worker)
    && (own == HandlerStep ==> s'.handler == s.handler && s'.gRunning == s.gRunning && s'.gPaused == s.gPaused)
    && (Booted(s.worker) ==> Booted(s'.worker))
  }

  lemma AnotherKeeps(s: Core, current: Report, own: Action, a: Action)
    requires Consistent(s, current) && OfAnother(own, a)
    requires own == WorkerStep ==> s.worker != NotCreated
    ensures Keeps(own, s, CoreNext(s, current, a))
  {
    match a
    case WorkerStep => WorkerTouches(s, current);
    case _ =>
  }

  lemma WorkerTouches(s: Core, current: Report)
    requires Consistent(s, current)
    ensures var s' := WorkerNext(s);
            s'.main == s.main && s'.handler == s.handler && s'.gRunning == s.gRunning && s'.gPaused == s.gPaused
    ensures Booted(s.worker) ==> Booted(WorkerNext(s).worker)
  {}

  // What a handler that has returned leaves behind.
  lemma RestTells(acts: seq<Action>)
    requires Run(acts).core.handler == Idle
    ensures var (s, current) := (Run(acts).core, Run(acts).log.current);
            && (!s.gRunning ==> current == Stopped && (s.event == Signalled || s.event == Closed))
            && (s.gPaused ==> current == Paused && s.mRunning && s.mPaused && s.controller == Live)
            && (s.gRunning && !s.gPaused && Booted(s.worker) ==>
                  current == Running && s.mRunning && !s.mPaused && s.controller == Live)
  {
    var n := RunKeeps(acts);
  }

  // A worker that has returned, one that goes round its loop, and a ServiceMain that has returned.
  lemma ThreadsTell(acts: seq<Action>)
    ensures var s := Run(acts).core;
            && (s.worker == Exited ==> s.controller == Null && !s.mRunning && !s.gRunning)
            && (InLoop(s.worker) ==> s.controller == Live && s.mRunning)
            && (s.main == Returned ==> s.worker == Exited && s.event == Closed)
            && (s.main == Failed ==> s.event == NoEvent || s.event == Closed)
            && (s.main == Failed ==> s.worker == NotCreated && (Run(acts).log.trace == [] || Run(acts).log.trace == FAILED_START))
  {
    var n := RunKeeps(acts);
  }

  lemma ContinuingTells(acts: seq<Action>)
    requires Run(acts).core.handler == ContDone
    ensures Run(acts).core.gRunning && Booted(Run(acts).core.worker)
  {
    var n := RunKeeps(acts);
  }

  // The controller's guards let every call through.
  lemma GuardsPass(acts: seq<Action>)
    ensures var s := Run(acts).core;
            && (s.handler == PauseTest || s.handler == ContTest ==> s.controller == Live)
            && (s.handler == PauseGuard ==> s.mRunning && !s.mPaused)
            && (s.handler == ContGuard ==> s.mRunning && s.mPaused)
            && (s.worker == StartGuard ==> !s.mRunning)
            && (s.worker == StopGuard ==> s.mRunning)
  {
    HandlerFindsLiveController(acts);
    var n := RunKeeps(acts);
  }

  lemma TraceIsLawful(acts: seq<Action>)
    ensures Lawful(Run(acts).log.trace) && !Run(acts).core.fault
  {
    HandlerFindsLiveController(acts);
    TraceLanguage(Run(acts).log.trace);
  }

  datatype Threads = Threads(main: MainPc, worker: WorkerPc, handler: HandlerPc, fault: bool)

  class ServiceProcess {
    var status: Log // g_serviceStatus, the static dwCheckPoint, and every report

    var gRunning: bool
    var gPaused: bool
    var event: EventHandle
    var controller: Pointer
    var mRunning: bool // the controller's fields
    var mPaused: bool

    // Where each thread stands, from which the others go on, and whether a dead controller was used.
    var threads: Threads

    // Every step taken so far.
    ghost var history: seq<Action>

    function Snapshot(): State
      reads this
    {
      State(Core(threads.main, threads.worker, threads.handler, gRunning, gPaused, event, controller, mRunning, mPaused, threads.fault),
            status)
    }

    ghost predicate Valid()
      reads this
    {
      Snapshot() == Run(history)
    }

    constructor ()
      ensures Valid() && history == []
    {
      status := Log(Unreported, false, 0, 1, []);
      gRunning, gPaused, event, controller := true, false, NoEvent, Null;
      mRunning, mPaused := false, false;
      threads, history := Threads(Register, NotCreated, Idle, false), [];
    }

    // The caller has taken the step `own`; now the others run.
    method Yield(own: Action)
      requires Snapshot() == Step(Run(history), own)
      requires own == WorkerStep ==> threads.worker != NotCreated
      modifies this
      ensures Valid() && old(history) + [own] <= history
      ensures forall a | a in history[|old(history)| + 1..] :: OfAnother(own, a)
      ensures own.MainStep? ==> MainSteps(history) == old(MainSteps(history)) + 1
      ensures own == WorkerStep ==> WorkerSteps(history) == old(WorkerSteps(history)) + 1
      ensures own == HandlerStep ==> HandlerSteps(history) == old(HandlerSteps(history)) + 1
      ensures own.MainStep? ==> threads.main == old(threads.main)
      ensures own == WorkerStep ==> threads.worker == old(threads.worker)
      ensures own == HandlerStep ==> threads.handler == old(threads.handler) && gRunning == old(gRunning) && gPaused == old(gPaused)
      ensures Booted(old(threads.worker)) ==> Booted(threads.worker)
    {
      var others: seq<Action> := *;
      if exists a | a in others :: !OfAnother(own, a) {
        others := [];
      }
      OthersFollow(history, own, others, Snapshot());
      OwnSteps(history, own, others);
      history := history + [own] + others;
      Become(RunFrom(Snapshot(), others));
    }

    method Become(s: State)
      modifies this
      ensures Snapshot() == s && history == old(history)
    {
      threads, status := Threads(s.core.main, s.core.worker, s.core.handler, s.core.fault), s.log;
      gRunning, gPaused, event, controller := s.core.gRunning, s.core.gPaused, s.core.event, s.core.controller;
      mRunning, mPaused := s.core.mRunning, s.core.mPaused;
    }

    method ReportServiceStatus(r: Report)
      modifies `status
      ensures status == Logged(old(status), r)
    {
      status := status.(current := r);
      if r == StartPending {
        status := status.(acceptsControls := false);
      } else {
        status := status.(acceptsControls := true);
      }
      if r == Running || r == Stopped {
        status := status.(checkPoint := 0);
      } else {
        status := status.(checkPoint := status.nextCheckPoint, nextCheckPoint := (status.nextCheckPoint + 1) % DWORD_RANGE);
      }
      status := status.(trace := status.trace + [r]);
    }

    // ---- ServiceMain -------------------------------------------------------------------------

    method MainReaches(next: MainPc, ok: bool)
      requires Snapshot().core.(main := next) == MainNext(Run(history).core, ok)
      requires Snapshot().log == LogNext(Run(history).log, Emits(Run(history).core, MainStep(ok)))
      modifies this
      ensures old(history) <= history && Valid() && threads.main == next
      ensures MainSteps(history) == old(MainSteps(history)) + 1
    {
      threads := threads.(main := next);
      Yield(MainStep(ok));
    }

    method MainReports(r: Report, next: MainPc, ok: bool)
      requires Valid() && r == Emits(Snapshot().core, MainStep(ok)) && r != Unreported
      requires Snapshot().core.(main := next) == MainNext(Snapshot().core, ok)
      modifies this
      ensures old(history) <= history && Valid() && threads.main == next
      ensures MainSteps(history) == old(MainSteps(history)) + 1
    {
      ReportServiceStatus(r);
      MainReaches(next, ok);
    }

    // The parameters say which Win32 calls succeed. INFINITE: `finished` is false if the worker has
    // not ended by the time we look.
    method ServiceMain(registered: bool, created: bool, spawned: bool) returns (finished: bool)
      requires Valid() && threads.main == Register
      modifies this
      ensures old(history) <= history && Valid() && !threads.fault && Lawful(status.trace)
      ensures finished <==> threads.main == Failed || threads.main == Returned
      ensures threads.main == Failed <==> !(registered && created && spawned)
      ensures threads.main == Failed ==> threads.worker == NotCreated && (status.trace == [] || status.trace == FAILED_START)
      ensures threads.main == Failed ==> event == NoEvent || event == Closed
      ensures threads.main == Returned ==> threads.worker == Exited && controller == Null && event == Closed
      ensures MainSteps(history) == old(MainSteps(history))
                + if !registered then 1 else if !created then 4 else if !spawned then 6 else if !finished then 4 else 6
    {
      finished := true;
      RegisterHandler(registered);
      if registered {
        CreateStopEvent(created);
        if created {
          SpawnWorker(spawned);
          if spawned {
            finished := JoinWorker();
          }
        }
      }
      TraceIsLawful(history);
      ThreadsTell(history);
    }

    method RegisterHandler(registered: bool)
      requires Valid() && threads.main == Register
      modifies this
      ensures old(history) <= history && Valid() && threads.main == if registered then CreateEvent else Failed
      ensures MainSteps(history) == old(MainSteps(history)) + if registered then 2 else 1
    {
      if !registered {
        MainReaches(Failed, false);
        return;
      }
      MainReaches(ReportStart, true);
      MainReports(StartPending, CreateEvent, true);
    }

    method CreateStopEvent(created: bool)
      requires Valid() && threads.main == CreateEvent
      modifies this
      ensures old(history) <= history && Valid() && threads.main == if created then CreateThread else Failed
      ensures MainSteps(history) == old(MainSteps(history)) + if created then 1 else 2
    {
      if !created {
        MainReaches(ReportNoEvent, false);
        MainReports(Stopped, Failed, true);
        return;
      }
      event := Unset;
      MainReaches(CreateThread, true);
    }

    method SpawnWorker(spawned: bool)
      requires Valid() && threads.main == CreateThread
      modifies this
      ensures old(history) <= history && Valid() && threads.main == if spawned then AwaitWorker else Failed
      ensures MainSteps(history) == old(MainSteps(history)) + if spawned then 1 else 3
    {
      if !spawned {
        MainReaches(ReportNoThread, false);
        AbandonStart();
        return;
      }
      threads := threads.(worker := NewController);
      MainReaches(AwaitWorker, true);
    }

    method AbandonStart()
      requires Valid() && threads.main == ReportNoThread
      modifies this
      ensures old(history) <= history && Valid() && threads.main == Failed
      ensures MainSteps(history) == old(MainSteps(history)) + 2
    {
      MainReports(Stopped, CloseUnused, true);
      event := Closed;
      MainReaches(Failed, true);
    }

    method JoinWorker() returns (joined: bool)
      requires Valid() && threads.main == AwaitWorker
      modifies this
      ensures old(history) <= history && Valid() && threads.main == if joined then Returned else AwaitWorker
      ensures MainSteps(history) == old(MainSteps(history)) + if joined then 2 else 0
    {
      if threads.worker != Exited {
        return false;
      }
      MainReaches(CloseEvent, true);
      event := Closed;
      MainReaches(Returned, true);
      return true;
    }

    // ---- ServiceWorkerThread -----------------------------------------------------------------

    method WorkerReaches(next: WorkerPc)
      requires next != NotCreated
      requires Snapshot().core.(worker := next) == WorkerNext(Run(history).core)
      requires Snapshot().log == LogNext(Run(history).log, Emits(Run(history).core, WorkerStep))
      modifies this
      ensures old(history) <= history && Valid() && threads.worker == next
      ensures WorkerSteps(history) == old(WorkerSteps(history)) + 1
    {
      threads := threads.(worker := next);
      Yield(WorkerStep);
    }

    method WorkerReports(r: Report, next: WorkerPc)
      requires next != NotCreated
      requires Valid() && r == Emits(Snapshot().core, WorkerStep) && r != Unreported
      requires Snapshot().core.(worker := next) == WorkerNext(Snapshot().core)
      modifies this
      ensures old(history) <= history && Valid() && threads.worker == next
      ensures WorkerSteps(history) == old(WorkerSteps(history)) + 1
    {
      ReportServiceStatus(r);
      WorkerReaches(next);
    }

    // ServiceController::start.
    method StartController()
      requires Valid() && threads.worker == StartGuard
      modifies this
      ensures old(history) <= history && Valid() && threads.worker == CheckFlag
      ensures WorkerSteps(history) == old(WorkerSteps(history)) + 4
    {
      ghost var before := history;
      if mRunning {
        WorkerReaches(CheckFlag);
      } else {
        WorkerReaches(SetRunning);
        EnterRunning();
      }
      GuardsPass(before);
    }

    method EnterRunning()
      requires Valid() && threads.worker == SetRunning
      modifies this
      ensures old(history) <= history && Valid() && threads.worker == CheckFlag
      ensures WorkerSteps(history) == old(WorkerSteps(history)) + 3
    {
      mRunning := true;
      WorkerReaches(ClearPaused);
      EnterUnpaused();
    }

    method EnterUnpaused()
      requires Valid() && threads.worker == ClearPaused
      modifies this
      ensures old(history) <= history && Valid() && threads.worker == CheckFlag
      ensures WorkerSteps(history) == old(WorkerSteps(history)) + 2
    {
      mPaused := false;
      WorkerReaches(EmitStarted);
      OnStarted();
    }

    // What is connected to the signal started().
    method OnStarted()
      requires Valid() && threads.worker == EmitStarted
      modifies this
      ensures old(history) <= history && Valid() && threads.worker == CheckFlag
      ensures WorkerSteps(history) == old(WorkerSteps(history)) + 1
    {
      WorkerReports(Running, CheckFlag);
    }

    // ServiceController::stop.
    method StopController()
      requires Valid() && threads.worker == StopGuard
      modifies this
      ensures old(history) <= history && Valid() && threads.worker == Delete
      ensures WorkerSteps(history) == old(WorkerSteps(history)) + 3
    {
      ghost var before := history;
      if !mRunning {
        WorkerReaches(Delete);
      } else {
        WorkerReaches(ClearRunning);
        LeaveRunning();
      }
      GuardsPass(before);
    }

    method LeaveRunning()
      requires Valid() && threads.worker == ClearRunning
      modifies this
      ensures old(history) <= history && Valid() && threads.worker == Delete
      ensures WorkerSteps(history) == old(WorkerSteps(history)) + 2
    {
      mRunning := false;
      WorkerReaches(EmitStopped);
      OnStopped();
    }

    // What is connected to the signal stopped().
    method OnStopped()
      requires Valid() && threads.worker == EmitStopped
      modifies this
      ensures old(history) <= history && Valid() && threads.worker == Delete
      ensures WorkerSteps(history) == old(WorkerSteps(history)) + 1
    {
      WorkerReports(Stopped, Delete);
    }

    method CreateController()
      requires Valid() && threads.worker == NewController
      modifies this
      ensures old(history) <= history && Valid() && threads.worker == StartGuard
      ensures WorkerSteps(history) == old(WorkerSteps(history)) + 1
    {
      controller, mRunning, mPaused := Live, false, false;
      WorkerReaches(StartGuard);
    }

    method DeleteController()
      requires Valid() && threads.worker == Delete
      modifies this
      ensures old(history) <= history && Valid() && threads.worker == Exited
      ensures WorkerSteps(history) == old(WorkerSteps(history)) + 2
    {
      controller := Dangling;
      WorkerReaches(ClearPointer);
      DropController();
    }

    method DropController()
      requires Valid() && threads.worker == ClearPointer
      modifies this
      ensures old(history) <= history && Valid() && threads.worker == Exited
      ensures WorkerSteps(history) == old(WorkerSteps(history)) + 1
    {
      controller := Null;
      WorkerReaches(Exited);
    }

    // The condition of the loop and, if it holds, the body.
    method Turn() returns (again: bool)
      requires Valid() && threads.worker == CheckFlag
      modifies this
      ensures old(history) <= history && Valid() && threads.worker == if again then CheckFlag else StopGuard
      ensures again ==> old(gRunning)
      ensures var took := WorkerSteps(history) - old(WorkerSteps(history)); if again then took == 3 else 1 <= took <= 2
    {
      if !gRunning {
        WorkerReaches(StopGuard);
        return false;
      }
      WorkerReaches(AwaitEvent);
      if event == Signalled {
        WorkerReaches(StopGuard);
        return false;
      }
      WorkerReaches(ProcessEvents);
      WorkerReaches(CheckFlag);
      return true;
    }

    method Loop(turns: nat) returns (left: bool)
      requires Valid() && threads.worker == CheckFlag
      modifies this
      ensures old(history) <= history && Valid() && threads.worker == if left then StopGuard else CheckFlag
      ensures var took := WorkerSteps(history) - old(WorkerSteps(history)); if left then 1 <= took < 3 * turns else took == 3 * turns
    {
      for turn := 0 to turns
        invariant old(history) <= history && Valid() && threads.worker == CheckFlag
        invariant WorkerSteps(history) == old(WorkerSteps(history)) + 3 * turn
      {
        var again := Turn();
        if !again {
          return true;
        }
      }
      return false;
    }

    // `ended` is false if the loop still goes round after so many turns.
    method ServiceWorkerThread(turns: nat) returns (ended: bool)
      requires Valid() && threads.worker == NewController
      modifies this
      ensures old(history) <= history && Valid() && !threads.fault && Lawful(status.trace)
      ensures ended ==> threads.worker == Exited && controller == Null && !mRunning && !gRunning
      ensures !ended ==> threads.worker == CheckFlag && controller == Live && mRunning
      ensures var took := WorkerSteps(history) - old(WorkerSteps(history));
              if ended then 11 <= took < 3 * turns + 10 else took == 3 * turns + 5
    {
      CreateController();
      StartController();
      ended := Loop(turns);
      if ended {
        StopController();
        DeleteController();
      }
      TraceIsLawful(history);
      ThreadsTell(history);
    }

    // ---- ServiceCtrlHandler ------------------------------------------------------------------

    method HandlerReaches(next: HandlerPc)
      requires Snapshot().core.(handler := next) == HandlerNext(Run(history).core, Run(history).log.current)
      requires Snapshot().log == LogNext(Run(history).log, Emits(Run(history).core, HandlerStep))
      modifies this
      ensures old(history) <= history && Valid() && threads.handler == next && gRunning == old(gRunning) && gPaused == old(gPaused)
      ensures Booted(old(threads.worker)) ==> Booted(threads.worker)
      ensures HandlerSteps(history) == old(HandlerSteps(history)) + 1
    {
      threads := threads.(handler := next);
      Yield(HandlerStep);
    }

    method HandlerReports(r: Report, next: HandlerPc)
      requires Valid() && r == Emits(Snapshot().core, HandlerStep) && r != Unreported
      requires Snapshot().core.(handler := next) == HandlerNext(Snapshot().core, status.current)
      modifies this
      ensures old(history) <= history && Valid() && threads.handler == next && gRunning == old(gRunning) && gPaused == old(gPaused)
      ensures Booted(old(threads.worker)) ==> Booted(threads.worker)
      ensures HandlerSteps(history) == old(HandlerSteps(history)) + 1
    {
      ReportServiceStatus(r);
      HandlerReaches(next);
    }

    // A member of *g_controller is used.
    method UseController()
      modifies `threads
      ensures threads == old(threads).(fault := old(threads).fault || controller != Live)
    {
      threads := threads.(fault := threads.fault || controller != Live);
    }

    // ServiceController::pause, called by the handler.
    method PauseController()
      requires Valid() && threads.handler == PauseGuard
      modifies this
      ensures old(history) <= history && Valid() && threads.handler == PauseDone && gPaused == old(gPaused)
      ensures HandlerSteps(history) == old(HandlerSteps(history)) + 3
    {
      ghost var before := history;
      UseController();
      if !mRunning || mPaused {
        HandlerReaches(PauseDone);
      } else {
        HandlerReaches(PauseSet);
        EnterPause();
      }
      GuardsPass(before);
    }

    method EnterPause()
      requires Valid() && threads.handler == PauseSet
      modifies this
      ensures old(history) <= history && Valid() && threads.handler == PauseDone && gPaused == old(gPaused)
      ensures HandlerSteps(history) == old(HandlerSteps(history)) + 2
    {
      UseController();
      mPaused := true;
      HandlerReaches(PauseEmit);
      OnPaused();
    }

    // What is connected to the signal paused().
    method OnPaused()
      requires Valid() && threads.handler == PauseEmit
      modifies this
      ensures old(history) <= history && Valid() && threads.handler == PauseDone && gPaused == old(gPaused)
      ensures HandlerSteps(history) == old(HandlerSteps(history)) + 1
    {
      UseController();
      ReportServiceStatus(Paused);
      HandlerReaches(PauseDone);
    }

    // ServiceController::resume.
    method ResumeController()
      requires Valid() && threads.handler == ContGuard
      modifies this
      ensures old(history) <= history && Valid() && threads.handler == ContDone && gPaused == old(gPaused)
      ensures HandlerSteps(history) == old(HandlerSteps(history)) + 3
    {
      ghost var before := history;
      UseController();
      if !mRunning || !mPaused {
        HandlerReaches(ContDone);
      } else {
        HandlerReaches(ContSet);
        LeavePause();
      }
      GuardsPass(before);
    }

    method LeavePause()
      requires Valid() && threads.handler == ContSet
      modifies this
      ensures old(history) <= history && Valid() && threads.handler == ContDone && gPaused == old(gPaused)
      ensures HandlerSteps(history) == old(HandlerSteps(history)) + 2
    {
      UseController();
      mPaused := false;
      HandlerReaches(ContEmit);
      OnResumed();
    }

    // What is connected to the signal resumed().
    method OnResumed()
      requires Valid() && threads.handler == ContEmit
      modifies this
      ensures old(history) <= history && Valid() && threads.handler == ContDone && gPaused == old(gPaused)
      ensures HandlerSteps(history) == old(HandlerSteps(history)) + 1
    {
      UseController();
      ReportServiceStatus(Running);
      HandlerReaches(ContDone);
    }

    // A control is accepted in one state, which the branch tests first.
    method Guard(ctrlCode: Control) returns (accepted: bool)
      requires Valid() && threads.handler == Dispatch(ctrlCode)
      modifies this
      ensures old(history) <= history && Valid() && (accepted <==> Accepts(ctrlCode, old(status.current)))
      ensures threads.handler == if !accepted then Idle
                               else match ctrlCode case Stop => StopReport case Pause => PauseReport case _ => ContReport
      ensures HandlerSteps(history) == old(HandlerSteps(history)) + 1
    {
      match ctrlCode {
        case Stop => accepted := status.current == Running;
        case Pause => accepted := status.current == Running;
        case Continue => accepted := status.current == Paused;
        case Other => accepted := false;
      }
      HandlerReaches(if !accepted then Idle
                     else match ctrlCode case Stop => StopReport case Pause => PauseReport case _ => ContReport);
    }

    method HandleStop()
      requires Valid() && threads.handler == StopReport
      modifies this
      ensures old(history) <= history && Valid() && threads.handler == Idle && !gRunning
      ensures HandlerSteps(history) == old(HandlerSteps(history)) + 4
    {
      HandlerReports(StopPending, StopFlag);
      SignalStop();
      HandlerReports(Stopped, Idle);
    }

    // SetEvent on a closed handle has no effect.
    method SignalStop()
      requires Valid() && threads.handler == StopFlag
      modifies this
      ensures old(history) <= history && Valid() && threads.handler == StopDone && !gRunning
      ensures HandlerSteps(history) == old(HandlerSteps(history)) + 2
    {
      gRunning := false;
      HandlerReaches(StopSignal);
      if event == Unset {
        event := Signalled;
      }
      HandlerReaches(StopDone);
    }

    method HandlePause()
      requires Valid() && threads.handler == PauseReport
      modifies this
      ensures old(history) <= history && Valid() && threads.handler == Idle && gPaused
      ensures HandlerSteps(history) == old(HandlerSteps(history)) + 7
    {
      HandlerReports(PausePending, PauseFlag);
      PauseService();
      HandlerReports(Paused, Idle);
    }

    method PauseService()
      requires Valid() && threads.handler == PauseFlag
      modifies this
      ensures old(history) <= history && Valid() && threads.handler == PauseDone && gPaused
      ensures HandlerSteps(history) == old(HandlerSteps(history)) + 5
    {
      gPaused := true;
      HandlerReaches(PauseTest);
      CallPause();
    }

    method CallPause()
      requires Valid() && threads.handler == PauseTest
      modifies this
      ensures old(history) <= history && Valid() && threads.handler == PauseDone && gPaused == old(gPaused)
      ensures HandlerSteps(history) == old(HandlerSteps(history)) + 4
    {
      ghost var before := history;
      if controller == Null {
        HandlerReaches(PauseDone);
      } else {
        HandlerReaches(PauseGuard);
        PauseController();
      }
      GuardsPass(before);
    }

    method HandleContinue()
      requires Valid() && threads.handler == ContReport
      modifies this
      ensures old(history) <= history && Valid() && threads.handler == Idle && gRunning && !gPaused && Booted(threads.worker)
      ensures HandlerSteps(history) == old(HandlerSteps(history)) + 7
    {
      HandlerReports(ContinuePending, ContFlag);
      ResumeService();
      HandlerReports(Running, Idle);
    }

    method ResumeService()
      requires Valid() && threads.handler == ContFlag
      modifies this
      ensures old(history) <= history && Valid() && threads.handler == ContDone && gRunning && !gPaused && Booted(threads.worker)
      ensures HandlerSteps(history) == old(HandlerSteps(history)) + 5
    {
      gPaused := false;
      HandlerReaches(ContTest);
      CallResume();
    }

    method CallResume()
      requires Valid() && threads.handler == ContTest
      modifies this
      ensures old(history) <= history && Valid() && threads.handler == ContDone && gPaused == old(gPaused)
      ensures gRunning && Booted(threads.worker)
      ensures HandlerSteps(history) == old(HandlerSteps(history)) + 4
    {
      ghost var before := history;
      if controller == Null {
        HandlerReaches(ContDone);
      } else {
        HandlerReaches(ContGuard);
        ResumeController();
      }
      ContinuingTells(history);
      GuardsPass(before);
    }

    // A control is accepted in the right state and then always takes effect: on return the
    // reported state, both flags and the controller are where the control wants them.
    method ServiceCtrlHandler(ctrlCode: Control) returns (accepted: bool)
      requires Valid() && threads.handler == Dispatch(ctrlCode)
      modifies this
      ensures old(history) <= history && Valid() && threads.handler == Idle && !threads.fault && Lawful(status.trace)
      ensures accepted <==> Accepts(ctrlCode, old(status.current))
      ensures accepted ==>
                match ctrlCode
                case Stop => status.current == Stopped && !gRunning && (event == Signalled || event == Closed)
                case Pause => status.current == Paused && gPaused && mRunning && mPaused && controller == Live
                case _ => status.current == Running && !gPaused && mRunning && !mPaused && controller == Live
      ensures HandlerSteps(history) == old(HandlerSteps(history)) + if !accepted then 1 else if ctrlCode == Stop then 5 else 8
    {
      accepted := Guard(ctrlCode);
      if accepted {
        if ctrlCode == Stop {
          HandleStop();
        } else if ctrlCode == Pause {
          HandlePause();
        } else {
          HandleContinue();
        }
      }
      TraceIsLawful(history);
      RestTells(history);
    }
  }
}
