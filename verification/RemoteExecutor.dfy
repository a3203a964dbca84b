/** remote_executor.cpp: the bookkeeping of asynchronous commands. Handlers do not re-enter one
    another, and `finished` is delivered only while a process is current - which need not be the one
    that finished: a superseded process is killed, its signals stay connected.
 */
module RemoteExecutor {
  import opened Options

  // Processes are numbered in the order in which they are created.
  datatype Event =
    | Execute(allowed: bool, starts: bool)     // executeCommandAsync; does the process start?
    | Finished(process: nat, exit: int)        // QProcess::finished
    | Failed(process: nat)                     // QProcess::errorOccurred
    | Output(text: string)                     // readyReadStandardOutput
    | Timeout

  // A commandCompleted: the process whose command it ends, that command's output, and the exit code,
  // with the process it comes from unless the command has timed out.
  datatype Completion = Completion(ended: nat, stdout: string, exit: int, exitOf: Option<nat>)

  datatype State = State(
    current: Option<nat>, armed: bool, output: string, created: nat,
    started: nat, ended: nat, superseded: nat, // commands by what became of them
    completed: seq<Completion>)

  const IDLE := State(None, false, "", 0, 0, 0, 0, [])

  // The current command is over.
  function Ended(s: State, done: seq<Completion>): State {
    s.(armed := false, current := None, ended := s.ended + 1, completed := s.completed + done)
  }

  // The handlers do not look at which process signals.
  function Step(s: State, e: Event): State {
    match e
    case Execute(allowed, starts) =>
      if !allowed then s else
        var t := s.(superseded := if s.current.Some? then s.superseded + 1 else s.superseded, current := None,
                    created := s.created + 1);
        if starts then t.(current := Some(s.created), output := "", armed := true, started := s.started + 1) else t
    case Finished(p, exit) =>
      if s.current.None? then s else Ended(s, [Completion(s.current.value, s.output, exit, Some(p))])
    case Failed(_) => if s.current.Some? then Ended(s, []) else s.(armed := false)
    case Output(text) => if s.current.Some? then s.(output := s.output + text) else s
    case Timeout =>
      if !s.armed then s
      else if s.current.None? then s.(armed := false)
      else Ended(s, [Completion(s.current.value, s.output, -1, None)])
  }

  function Run(es: seq<Event>): State {
    if es == [] then IDLE else Step(Run(es[..|es| - 1]), es[|es| - 1])
  }

  // ---- Read off the history ------------------------------------------------------------------

  function Starts(es: seq<Event>): nat {
    if es == [] then 0 else Starts(es[..|es| - 1]) + if es[|es| - 1] == Execute(true, true) then 1 else 0
  }

  // The allowed commands, each of which creates a process.
  function Commands(es: seq<Event>): nat {
    if es == [] then 0 else Commands(es[..|es| - 1]) + if es[|es| - 1].Execute? && es[|es| - 1].allowed then 1 else 0
  }

  function Latest(es: seq<Event>): nat { if Commands(es) > 0 then Commands(es) - 1 else 0 }

  // The last allowed command started, and nothing has ended it.
  predicate Busy(es: seq<Event>) {
    es != [] && match es[|es| - 1]
                case Execute(true, starts) => starts
                case Finished(_, _) | Failed(_) | Timeout => false
                case _ => Busy(es[..|es| - 1])
  }

  // Allowed commands that came while another was busy.
  function Preemptions(es: seq<Event>): nat {
    if es == [] then 0
    else Preemptions(es[..|es| - 1]) + if es[|es| - 1].Execute? && es[|es| - 1].allowed && Busy(es[..|es| - 1]) then 1 else 0
  }

  // The chunks read since the last start.
  function Transcript(es: seq<Event>): string {
    if es == [] then "" else
      match es[|es| - 1]
      case Execute(true, true) => ""
      case Output(text) => if Busy(es[..|es| - 1]) then Transcript(es[..|es| - 1]) + text else Transcript(es[..|es| - 1])
      case _ => Transcript(es[..|es| - 1])
  }

  // Every started command has ended, was superseded, or is current, which implies an armed timeout
  // and is the command of the latest process.
  lemma {:induction false} CommandsAreConserved(es: seq<Event>)
    ensures Run(es).started == Starts(es) == Run(es).ended + Preemptions(es) + if Busy(es) then 1 else 0
    ensures Run(es).current.Some? == Busy(es) && Run(es).superseded == Preemptions(es)
    ensures Run(es).current.Some? ==> Run(es).armed && Run(es).current.value + 1 == Commands(es)
    ensures Run(es).created == Commands(es) && Run(es).output == Transcript(es)
  {
    if es != [] {
      CommandsAreConserved(es[..|es| - 1]);
    }
  }

  // Every commandCompleted there ever is: one for each `finished` and each timeout that finds a
  // command busy. An error, a start and output complete nothing.
  function Completions(es: seq<Event>): seq<Completion> {
    if es == [] then []
    else
      var init := es[..|es| - 1];
      Completions(init) +
      match es[|es| - 1]
      case Finished(process, exit) => if Busy(init) then [Completion(Latest(init), Transcript(init), exit, Some(process))] else []
      case Timeout => if Busy(init) then [Completion(Latest(init), Transcript(init), -1, None)] else []
      case _ => []
  }

  // The timeout has been started, and stopped neither by an error or its own firing nor by the end
  // of its command.
  predicate TimeoutArmed(es: seq<Event>) {
    es != [] && match es[|es| - 1]
                case Execute(true, true) => true
                case Failed(_) | Timeout => false
                case Finished(_, _) => TimeoutArmed(es[..|es| - 1]) && !Busy(es[..|es| - 1])
                case _ => TimeoutArmed(es[..|es| - 1])
  }

  lemma {:induction false} HistoryDecides(es: seq<Event>)
    ensures Run(es).completed == Completions(es)
    ensures Run(es).armed == TimeoutArmed(es)
  {
    if es != [] {
      HistoryDecides(es[..|es| - 1]);
      CommandsAreConserved(es[..|es| - 1]);
    }
  }

  // A timeout armed without a current process was left behind by a start that failed while another
  // command was busy; firing, it does nothing.
  lemma {:induction false} StaleTimeout(es: seq<Event>)
    requires Run(es).armed && !Busy(es)
    ensures exists k :: 0 <= k < |es| && es[k] == Execute(true, false) && Busy(es[..k])
    ensures Run(es + [Timeout]) == Run(es).(armed := false)
  {
    var n := |es| - 1;
    var init := es[..n];
    CommandsAreConserved(es);
    CommandsAreConserved(init);
    assert (es + [Timeout])[..|es|] == es;
    if Busy(init) {
      assert es[n] == Execute(true, false);
    } else {
      StaleTimeout(init);
      var k :| 0 <= k < |init| && init[k] == Execute(true, false) && Busy(init[..k]);
      assert es[k] == init[k] && es[..k] == init[..k];
    }
  }

  // A completion, by a signal or by the timeout, ends the latest command and carries what was read
  // since it started.
  lemma CompletionCarriesTranscript(es: seq<Event>, e: Event)
    requires Busy(es) && (e.Finished? || e == Timeout)
    ensures Run(es + [e]).completed == Run(es).completed
              + [if e.Finished? then Completion(Latest(es), Transcript(es), e.exit, Some(e.process))
                 else Completion(Latest(es), Transcript(es), -1, None)]
    ensures !Busy(es + [e])
  {
    CommandsAreConserved(es);
    assert (es + [e])[..|es|] == es;
  }

  // A process's own completion: its exit code comes with its own output.
  predicate Proper(c: Completion) { c.exitOf == None || c.exitOf == Some(c.ended) }

  predicate AllProper(cs: seq<Completion>) { forall c | c in cs :: Proper(c) }

  lemma AllProperSnoc(cs: seq<Completion>, c: Completion)
    ensures AllProper(cs + [c]) <==> AllProper(cs) && Proper(c)
  {
    assert c in cs + [c];
    assert forall d | d in cs :: d in cs + [c];
  }

  // An allowed command has come since the process was created.
  predicate Superseded(es: seq<Event>, process: nat) { process + 1 < Commands(es) }

  // Signals come only from processes that have been created.
  ghost predicate FromCreated(es: seq<Event>) {
    forall k | 0 <= k < |es| && es[k].Finished? :: es[k].process < Commands(es[..k])
  }

  // A `finished` that comes late, from a superseded process, while another command is busy.
  ghost predicate Late(es: seq<Event>, k: int) {
    0 <= k < |es| && es[k].Finished? && Busy(es[..k]) && Superseded(es[..k], es[k].process)
  }

  lemma LateSnoc(es: seq<Event>, e: Event)
    ensures (exists k :: Late(es + [e], k)) <==>
              (exists k :: Late(es, k)) || (e.Finished? && Busy(es) && Superseded(es, e.process))
    ensures FromCreated(es + [e]) ==> FromCreated(es) && (e.Finished? ==> e.process < Commands(es))
  {
    var t := es + [e];
    assert t[..|es|] == es && t[|es|] == e;
    assert forall k | 0 <= k < |es| :: t[..k] == es[..k] && t[k] == es[k];
    if k :| Late(es, k) {
      assert Late(t, k);
    }
    if e.Finished? && Busy(es) && Superseded(es, e.process) {
      assert Late(t, |es|);
    }
    if k :| Late(t, k) {
      assert k < |es| ==> Late(es, k);
    }
  }

  // Every completion gives a command its own exit code exactly if no `finished` comes late; a late
  // one ends the busy command with the code of another.
  lemma {:induction false} CompletionsAreProperIff(es: seq<Event>)
    requires FromCreated(es)
    ensures AllProper(Run(es).completed) <==> !exists k :: Late(es, k)
  {
    if es != [] {
      var init, e := es[..|es| - 1], es[|es| - 1];
      assert es == init + [e];
      LateSnoc(init, e);
      CompletionsAreProperIff(init);
      CommandsAreConserved(init);
      var before := Run(init).completed;
      if Busy(init) && (e.Finished? || e == Timeout) {
        CompletionCarriesTranscript(init, e);
        AllProperSnoc(before, Run(es).completed[|before|]);
      } else {
        assert Run(es).completed == before;
      }
    }
  }

  class RemoteExecutor {
    var currentProcess: Option<nat>
    var timeoutTimer: bool   // active
    var currentCommandOutput: string
    var created: nat

    ghost var started: nat
    ghost var ended: nat
    ghost var superseded: nat
    ghost var completed: seq<Completion>

    ghost function Snapshot(): State
      reads this
    {
      State(currentProcess, timeoutTimer, currentCommandOutput, created, started, ended, superseded, completed)
    }

    constructor ()
      ensures Snapshot() == IDLE
    {
      currentProcess, timeoutTimer, currentCommandOutput, created := None, false, "", 0;
      started, ended, superseded, completed := 0, 0, 0, [];
    }

    method ExecuteCommandAsync(allowed: bool, starts: bool)
      modifies this
      ensures Snapshot() == Step(old(Snapshot()), Execute(allowed, starts))
    {
      if !allowed { return; }
      if currentProcess.Some? {
        superseded := superseded + 1; // killed
      }
      currentProcess := Some(created);
      created := created + 1;
      if !starts {
        currentProcess := None;
        return;
      }
      started := started + 1;
      currentCommandOutput := "";
      timeoutTimer := true;
    }

    // `sender`: the process that finished.
    method OnProcessFinished(sender: nat, exit: int) returns (stdout: string)
      requires currentProcess.Some?
      modifies this
      ensures Snapshot() == Step(old(Snapshot()), Finished(sender, exit)) && stdout == old(currentCommandOutput)
    {
      timeoutTimer := false;
      stdout := currentCommandOutput;
      completed := completed + [Completion(currentProcess.value, stdout, exit, Some(sender))];
      currentProcess := None;
      ended := ended + 1;
    }

    method OnProcessError(sender: nat)
      modifies this
      ensures Snapshot() == Step(old(Snapshot()), Failed(sender))
    {
      timeoutTimer := false;
      if currentProcess.Some? {
        currentProcess := None;
        ended := ended + 1;
      }
    }

    method OnReadyReadStandardOutput(text: string)
      modifies `currentCommandOutput
      ensures Snapshot() == Step(old(Snapshot()), Output(text))
    {
      if currentProcess.Some? {
        currentCommandOutput := currentCommandOutput + text;
      }
    }

    method OnExecutionTimeout()
      requires timeoutTimer
      modifies this
      ensures Snapshot() == Step(old(Snapshot()), Timeout)
    {
      timeoutTimer := false; // single shot
      if currentProcess.Some? {
        completed := completed + [Completion(currentProcess.value, currentCommandOutput, -1, None)];
        currentProcess := None;
        ended := ended + 1;
      }
    }
  }
}
