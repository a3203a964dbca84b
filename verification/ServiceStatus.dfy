/** The controller inside the service: what the protocol's steps do to it are calls of the event
    machine, so what its timers push over IPC can be compared with what the service reports.
 */
module ServiceStatus {
  import Events = ControllerEvents
  import opened ServiceProtocol

  // The calls that reach the controller, each at the step that writes its flag.
  function Calls(acts: seq<Action>): seq<Events.Event> {
    if acts == [] then []
    else Calls(acts[..|acts| - 1]) + CallOf(Run(acts[..|acts| - 1]).core, acts[|acts| - 1])
  }

  function CallOf(s: Core, a: Action): seq<Events.Event> {
    if a == WorkerStep && s.worker == SetRunning then [Events.Start(0)]
    else if a == WorkerStep && s.worker == ClearRunning then [Events.Stop]
    else if a == HandlerStep && s.handler == PauseSet then [Events.Pause]
    else if a == HandlerStep && s.handler == ContSet then [Events.Resume]
    else []
  }

  // The calls among what happens to a controller, whatever plugins it finds.
  function CallsIn(es: seq<Events.Event>): seq<Events.Event> {
    if es == [] then []
    else
      var e := es[|es| - 1];
      CallsIn(es[..|es| - 1]) + if Events.IsTimer(e) then [] else if e.Start? then [Events.Start(0)] else [e]
  }

  predicate SameFlags(c: Events.Controller, d: Events.Controller) { c.running == d.running && c.paused == d.paused }

  // Timers and plugins have no part in the flags.
  lemma {:induction false} CallsDecide(es: seq<Events.Event>)
    ensures SameFlags(Events.Run(es).core, Events.Run(CallsIn(es)).core)
  {
    if es != [] {
      var init, e := es[..|es| - 1], es[|es| - 1];
      CallsDecide(init);
      if Events.IsTimer(e) {
        assert CallsIn(es) == CallsIn(init);
        TimersKeepFlags(Events.Run(init).core, e);
      } else {
        var call := if e.Start? then Events.Start(0) else e;
        Events.RunSnoc(Events.FRESH, CallsIn(init), call);
        CallsSetFlags(Events.Run(init).core, Events.Run(CallsIn(init)).core, e, call);
      }
    }
  }

  lemma TimersKeepFlags(c: Events.Controller, e: Events.Event)
    requires Events.IsTimer(e)
    ensures SameFlags(Events.Next(c, e), c)
  {}

  lemma CallsSetFlags(c: Events.Controller, d: Events.Controller, e: Events.Event, call: Events.Event)
    requires SameFlags(c, d) && !Events.IsTimer(e) && call == if e.Start? then Events.Start(0) else e
    ensures SameFlags(Events.Next(c, e), Events.Next(d, call))
  {}

  // The protocol's flags are those of the event machine after these calls.
  predicate HasFlags(c: Events.Controller, s: Core) { c.running == s.mRunning && c.paused == s.mPaused }

  lemma {:induction false} FlagsAreTheControllers(acts: seq<Action>)
    ensures HasFlags(Events.Run(Calls(acts)).core, Run(acts).core)
  {
    if acts != [] {
      var init, a := acts[..|acts| - 1], acts[|acts| - 1];
      FlagsAreTheControllers(init);
      var n := RunKeeps(init);
      StepMovesFlags(Events.Run(Calls(init)), Run(init).core, Run(init).log.current, a);
      if CallOf(Run(init).core, a) == [] {
        assert Calls(acts) == Calls(init);
      } else {
        Events.RunSnoc(Events.FRESH, Calls(init), CallOf(Run(init).core, a)[0]);
      }
    }
  }

  lemma StepMovesFlags(c: Events.State, s: Core, current: Report, a: Action)
    requires Consistent(s, current) && HasFlags(c.core, s)
    ensures var call := CallOf(s, a);
            if call == [] then HasFlags(c.core, CoreNext(s, current, a))
            else call == [call[0]] && HasFlags(Events.Step(c, call[0]).core, CoreNext(s, current, a))
  {
    match a
    case MainStep(ok) =>
    case WorkerStep => WorkerMovesFlags(c.core, s, current);
    case HandlerStep => HandlerMovesFlags(c.core, s, current);
    case Deliver(_) =>
  }

  lemma WorkerMovesFlags(c: Events.Controller, s: Core, current: Report)
    requires Consistent(s, current) && HasFlags(c, s)
    ensures HasFlags(if s.worker == SetRunning then Events.Next(c, Events.Start(0))
                     else if s.worker == ClearRunning then Events.Next(c, Events.Stop) else c, WorkerNext(s))
  {}

  lemma HandlerMovesFlags(c: Events.Controller, s: Core, current: Report)
    requires Consistent(s, current) && HasFlags(c, s)
    ensures HasFlags(if s.handler == PauseSet then Events.Next(c, Events.Pause)
                     else if s.handler == ContSet then Events.Next(c, Events.Resume) else c, HandlerNext(s, current))
  {}

  // Timers fire while the worker processes events. If no control is being handled, what a metrics
  // tick then pushes is the state last reported - save for a service that reports Stopped and has
  // not come down yet, which pushes "Running".
  lemma PushesTellState(acts: seq<Action>, es: seq<Events.Event>)
    requires CallsIn(es) == Calls(acts)
    requires Run(acts).core.worker == ProcessEvents && PhaseIn(Run(acts)).Resting?
    ensures var reported := Run(acts).log.current;
            && (reported == Running || reported == Paused || reported == Stopped)
            && Events.Pushed(Events.Run(es).core) == [Events.Push(if reported == Paused then "Paused" else "Running")]
  {
    CallsDecide(es);
    FlagsAreTheControllers(acts);
    Events.AlwaysCoherent(es);
    var n := RunKeeps(acts);
  }
}
