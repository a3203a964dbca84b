/** ServiceController as a machine over its calls and timer firings. The timers that start()
    creates for heartbeats, plugin status and metrics are never stopped, so they fire for ever.
 */
module ControllerEvents {

  datatype Kind = Registration | Heartbeat | PluginStatus | Metrics

  // A post to the backend, a push over IPC, or a signal.
  datatype Output = Post(kind: Kind) | Push(status: string) | Started | Stopped | Paused | Resumed

  datatype Event =
    | Start(kept: nat) // how many plugin files turn out to be plugins
    | Stop | Pause | Resume
    | HeartbeatTimer | StatusTimer | MetricsTimer | WatchdogTimer

  predicate IsTimer(e: Event) { e.HeartbeatTimer? || e.StatusTimer? || e.MetricsTimer? || e.WatchdogTimer? }

  datatype Controller = Controller(
    network: bool, host: bool, source: bool, watchdog: bool, // pointers that are not null
    running: bool, paused: bool, missed: nat, plugins: nat,
    heartbeatTimers: nat, statusTimers: nat, metricsTimers: nat, watchdogTimers: nat, // active ones
    recoveries: nat) // times the watchdog found three ticks missed

  datatype State = State(core: Controller, out: seq<Output>)

  const FRESH := State(Controller(false, false, false, false, false, false, 0, 0, 0, 0, 0, 0, 0), [])

  function StatusString(running: bool, paused: bool): string {
    if paused then "Paused" else if running then "Running" else "Stopped"
  }

  function Next(c: Controller, e: Event): Controller {
    match e
    case Start(n) =>
      if c.running then c else
        Controller(true, true, true, true, true, false, 0, c.plugins + n, c.heartbeatTimers + 1,
                   c.statusTimers + 1, c.metricsTimers + 1, c.watchdogTimers + 1, c.recoveries)
    case Stop =>
      if !c.running then c else
        c.(network := false, host := false, source := false, watchdog := false,
           running := false, plugins := 0,
           watchdogTimers := if c.watchdog && c.watchdogTimers > 0 then c.watchdogTimers - 1 else c.watchdogTimers)
    case Pause => if c.running then c.(paused := true) else c
    case Resume => if c.running then c.(paused := false) else c
    case HeartbeatTimer | StatusTimer => c
    // A timer can fire only if one is active.
    case MetricsTimer => if c.metricsTimers == 0 then c else c.(missed := 0)
    case WatchdogTimer => if c.watchdogTimers == 0 then c else Ticked(c)
  }

  function Ticked(c: Controller): Controller {
    var due := c.missed + 1 >= 3;
    c.(missed := if due then 0 else c.missed + 1, recoveries := if due then c.recoveries + 1 else c.recoveries)
  }

  // What initialize() posts.
  const ANNOUNCEMENT: seq<Output> := [Post(Registration), Post(Heartbeat), Post(PluginStatus)]

  function Sent(c: Controller, k: Kind): seq<Output> { if c.network then [Post(k)] else [] }

  function Pushed(c: Controller): seq<Output> {
    if c.source then [Push(StatusString(c.running, c.paused))] else []
  }

  // What an event posts, pushes and signals.
  function Emits(c: Controller, e: Event): seq<Output> {
    match e
    case Start(_) => if c.running then [] else ANNOUNCEMENT + [Started]
    case Stop => if c.running then [Stopped] else []
    case Pause => if c.running && !c.paused then [Paused] else []
    case Resume => if c.running && c.paused then [Resumed] else []
    case HeartbeatTimer => if c.heartbeatTimers == 0 then [] else Sent(c, Heartbeat)
    case StatusTimer => if c.statusTimers == 0 then [] else Sent(c, PluginStatus)
    case MetricsTimer => if c.metricsTimers == 0 then [] else Sent(c, Metrics) + Pushed(c)
    case WatchdogTimer => if c.watchdogTimers == 0 || c.missed + 1 < 3 then [] else Sent(c, Heartbeat)
  }

  function Step(s: State, e: Event): State { State(Next(s.core, e), s.out + Emits(s.core, e)) }

  function RunFrom(s: State, es: seq<Event>): State {
    if es == [] then s else Step(RunFrom(s, es[..|es| - 1]), es[|es| - 1])
  }

  function Run(es: seq<Event>): State { RunFrom(FRESH, es) }

  lemma RunSnoc(s: State, es: seq<Event>, e: Event)
    ensures RunFrom(s, es + [e]) == Step(RunFrom(s, es), e)
  {
    assert (es + [e])[..|es|] == es;
  }

  lemma {:induction false} RunConcat(s: State, a: seq<Event>, b: seq<Event>)
    ensures RunFrom(s, a + b) == RunFrom(RunFrom(s, a), b)
    decreases |b|
  {
    if b == [] {
      assert a + b == a;
    } else {
      assert (a + b)[..|a + b| - 1] == a + b[..|b| - 1];
      RunConcat(s, a, b[..|b| - 1]);
    }
  }

  // Running coincides with every pointer being set and with one watchdog ticking.
  predicate Coherent(c: Controller) {
    && c.running == c.network == c.host == c.source == c.watchdog
    && (!c.running ==> c.plugins == 0)
    && c.watchdogTimers == (if c.running then 1 else 0)
    && c.heartbeatTimers == c.statusTimers == c.metricsTimers
    && (c.running ==> c.metricsTimers > 0)
    && c.missed < 3
  }

  lemma NextCoherent(c: Controller, e: Event)
    requires Coherent(c)
    ensures Coherent(Next(c, e))
  {}

  lemma {:induction false} AlwaysCoherent(es: seq<Event>)
    ensures Coherent(Run(es).core)
  {
    if es != [] {
      AlwaysCoherent(es[..|es| - 1]);
      NextCoherent(Run(es[..|es| - 1]).core, es[|es| - 1]);
    }
  }

  lemma DownStep(c: Controller, e: Event)
    requires Coherent(c) && !c.running && !e.Start?
    ensures Coherent(Next(c, e)) && !Next(c, e).running && Next(c, e).paused == c.paused && Emits(c, e) == []
  {
    NextCoherent(c, e);
  }

  lemma {:induction false} DownStaysQuiet(s: State, b: seq<Event>)
    requires Coherent(s.core) && !s.core.running && forall e | e in b :: !e.Start?
    ensures Coherent(RunFrom(s, b).core) && !RunFrom(s, b).core.running
    ensures RunFrom(s, b).core.paused == s.core.paused && RunFrom(s, b).out == s.out
  {
    if b != [] {
      var t, e := RunFrom(s, b[..|b| - 1]), b[|b| - 1];
      assert e in b;
      DownStaysQuiet(s, b[..|b| - 1]);
      DownStep(t.core, e);
    }
  }

  // After stop nothing is posted, pushed or signalled until the next start, however many timers
  // earlier starts have left behind.
  lemma QuietAfterStop(a: seq<Event>, b: seq<Event>)
    requires forall e | e in b :: !e.Start?
    ensures Run(a + [Stop] + b).out == Run(a + [Stop]).out
  {
    AlwaysCoherent(a + [Stop]);
    RunSnoc(FRESH, a, Stop);
    RunConcat(FRESH, a + [Stop], b);
    DownStaysQuiet(Run(a + [Stop]), b);
  }

  // ---- Left-over timers ----------------------------------------------------------------------

  // A start that finds the controller down: none has come since the last stop.
  predicate IsUp(es: seq<Event>) {
    es != [] && match es[|es| - 1]
                case Start(_) => true
                case Stop => false
                case _ => IsUp(es[..|es| - 1])
  }

  function EffectiveStarts(es: seq<Event>): nat {
    if es == [] then 0
    else EffectiveStarts(es[..|es| - 1]) + if es[|es| - 1].Start? && !IsUp(es[..|es| - 1]) then 1 else 0
  }

  lemma NextTimers(c: Controller, e: Event)
    requires Coherent(c)
    ensures Next(c, e).running == (if e.Start? then true else if e == Stop then false else c.running)
    ensures Next(c, e).metricsTimers == c.metricsTimers + if e.Start? && !c.running then 1 else 0
  {}

  // Every effective start leaves one more timer of each of the three kinds behind, for good.
  lemma {:induction false} TimersAccumulate(es: seq<Event>)
    ensures Run(es).core.running == IsUp(es)
    ensures Run(es).core.heartbeatTimers == Run(es).core.statusTimers == Run(es).core.metricsTimers == EffectiveStarts(es)
  {
    AlwaysCoherent(es);
    if es != [] {
      AlwaysCoherent(es[..|es| - 1]);
      TimersAccumulate(es[..|es| - 1]);
      NextTimers(Run(es[..|es| - 1]).core, es[|es| - 1]);
    }
  }

  // ---- Outputs -------------------------------------------------------------------------------

  function Posts(out: seq<Output>, k: Kind): nat {
    if out == [] then 0 else Posts(out[..|out| - 1], k) + if out[|out| - 1] == Post(k) then 1 else 0
  }

  function Pushes(out: seq<Output>): nat {
    if out == [] then 0 else Pushes(out[..|out| - 1]) + if out[|out| - 1].Push? then 1 else 0
  }

  lemma {:induction false} CountsAdd(a: seq<Output>, b: seq<Output>, k: Kind)
    ensures Posts(a + b, k) == Posts(a, k) + Posts(b, k) && Pushes(a + b) == Pushes(a) + Pushes(b)
    decreases |b|
  {
    if b == [] {
      assert a + b == a;
    } else {
      assert (a + b)[..|a + b| - 1] == a + b[..|b| - 1];
      CountsAdd(a, b[..|b| - 1], k);
    }
  }

  lemma CountsOne(o: Output, k: Kind)
    ensures Posts([o], k) == (if o == Post(k) then 1 else 0) && Pushes([o]) == if o.Push? then 1 else 0
  {
    assert [o][..0] == [];
  }

  lemma CountsAnnouncement(k: Kind)
    ensures Posts(ANNOUNCEMENT + [Started], k) == (if k == Metrics then 0 else 1) && Pushes(ANNOUNCEMENT + [Started]) == 0
  {
    assert ANNOUNCEMENT == [Post(Registration)] + [Post(Heartbeat)] + [Post(PluginStatus)];
    CountsOne(Post(Registration), k);
    CountsOne(Post(Heartbeat), k);
    CountsOne(Post(PluginStatus), k);
    CountsOne(Started, k);
    CountsAdd([Post(Registration)], [Post(Heartbeat)], k);
    CountsAdd([Post(Registration)] + [Post(Heartbeat)], [Post(PluginStatus)], k);
    CountsAdd(ANNOUNCEMENT, [Started], k);
  }

  // The posts of one kind that one event causes: a start all but metrics, a timer its own, a
  // recovery one more heartbeat.
  function Caused(up: bool, e: Event, recovered: bool, k: Kind): nat {
    match e
    case Start(_) => if !up && k != Metrics then 1 else 0
    case HeartbeatTimer => if up && k == Heartbeat then 1 else 0
    case StatusTimer => if up && k == PluginStatus then 1 else 0
    case MetricsTimer => if up && k == Metrics then 1 else 0
    case WatchdogTimer => if recovered && k == Heartbeat then 1 else 0
    case _ => 0
  }

  predicate Recovers(c: Controller, e: Event) { Next(c, e).recoveries > c.recoveries }

  lemma NextRecoveries(c: Controller, e: Event)
    ensures Next(c, e).recoveries == c.recoveries + if Recovers(c, e) then 1 else 0
    ensures Recovers(c, e) <==> e == WatchdogTimer && c.watchdogTimers > 0 && c.missed + 1 >= 3
  {
    match e
    case WatchdogTimer => assert Ticked(c).recoveries >= c.recoveries;
    case _ =>
  }

  lemma SentCounts(c: Controller, sent: Kind, k: Kind)
    ensures Posts(Sent(c, sent), k) == (if c.network && sent == k then 1 else 0) && Pushes(Sent(c, sent)) == 0
  {
    CountsOne(Post(sent), k);
  }

  lemma CallCaused(c: Controller, e: Event, k: Kind)
    requires !IsTimer(e)
    ensures Posts(Emits(c, e), k) == Caused(c.running, e, false, k) && Pushes(Emits(c, e)) == 0
  {
    match e
    case Start(_) => CountsAnnouncement(k);
    case Stop => CountsOne(Stopped, k);
    case Pause => CountsOne(Paused, k);
    case Resume => CountsOne(Resumed, k);
  }

  lemma MetricsCaused(c: Controller, k: Kind)
    requires Coherent(c)
    ensures Posts(Emits(c, MetricsTimer), k) == Caused(c.running, MetricsTimer, false, k)
    ensures Pushes(Emits(c, MetricsTimer)) == if c.running then 1 else 0
  {
    SentCounts(c, Metrics, k);
    CountsOne(Push(StatusString(c.running, c.paused)), k);
    CountsAdd(Sent(c, Metrics), Pushed(c), k);
  }

  lemma EmitsCaused(c: Controller, e: Event, k: Kind)
    requires Coherent(c)
    ensures Posts(Emits(c, e), k) == Caused(c.running, e, Recovers(c, e), k)
    ensures Pushes(Emits(c, e)) == if e == MetricsTimer && c.running then 1 else 0
  {
    NextRecoveries(c, e);
    match e
    case HeartbeatTimer => SentCounts(c, Heartbeat, k);
    case StatusTimer => SentCounts(c, PluginStatus, k);
    case MetricsTimer => MetricsCaused(c, k);
    case WatchdogTimer => SentCounts(c, Heartbeat, k);
    case _ => CallCaused(c, e, k);
  }

  // Firings of one kind of timer between a start and the next stop.
  function FiringsUp(es: seq<Event>, e: Event): nat {
    if es == [] then 0
    else FiringsUp(es[..|es| - 1], e) + if es[|es| - 1] == e && IsUp(es[..|es| - 1]) then 1 else 0
  }

  // The posts of one kind that starts, firings while up and recoveries account for.
  function Accounted(es: seq<Event>, recoveries: nat, k: Kind): nat {
    match k
    case Registration => EffectiveStarts(es)
    case Heartbeat => EffectiveStarts(es) + FiringsUp(es, HeartbeatTimer) + recoveries
    case PluginStatus => EffectiveStarts(es) + FiringsUp(es, StatusTimer)
    case Metrics => FiringsUp(es, MetricsTimer)
  }

  lemma AccountedSnoc(es: seq<Event>, e: Event, before: nat, recovered: bool, k: Kind)
    requires recovered ==> e == WatchdogTimer
    ensures Accounted(es + [e], before + (if recovered then 1 else 0), k)
         == Accounted(es, before, k) + Caused(IsUp(es), e, recovered, k)
  {
    assert (es + [e])[..|es|] == es;
  }

  // Every post and push there ever is has its cause: one announcement for each effective start, one
  // post for each firing of its timer while up, one heartbeat more for each recovery.
  lemma {:induction false} OutputsAreAccounted(es: seq<Event>, k: Kind)
    ensures Posts(Run(es).out, k) == Accounted(es, Run(es).core.recoveries, k)
    ensures Pushes(Run(es).out) == FiringsUp(es, MetricsTimer)
  {
    if es != [] {
      var init, e := es[..|es| - 1], es[|es| - 1];
      var s := Run(init);
      OutputsAreAccounted(init, k);
      AlwaysCoherent(init);
      TimersAccumulate(init);
      EmitsCaused(s.core, e, k);
      NextRecoveries(s.core, e);
      CountsAdd(s.out, Emits(s.core, e), k);
      assert es == init + [e];
      AccountedSnoc(init, e, s.core.recoveries, Recovers(s.core, e), k);
    }
  }

  // ---- The outputs in order ------------------------------------------------------------------

  // Paused since the last start, and not resumed; a stop does not end it.
  predicate IsPaused(es: seq<Event>) {
    es != [] && match es[|es| - 1]
                case Start(_) => IsUp(es[..|es| - 1]) && IsPaused(es[..|es| - 1])
                case Pause => IsUp(es[..|es| - 1]) || IsPaused(es[..|es| - 1])
                case Resume => !IsUp(es[..|es| - 1]) && IsPaused(es[..|es| - 1])
                case _ => IsPaused(es[..|es| - 1])
  }

  // Watchdog ticks while up since the last metrics tick, start or recovery, which is the third.
  function Missed(es: seq<Event>): (n: nat)
    ensures n <= 2
  {
    if es == [] then 0
    else
      var n := Missed(es[..|es| - 1]);
      match es[|es| - 1]
      case Start(_) => if IsUp(es[..|es| - 1]) then n else 0
      case MetricsTimer => if EffectiveStarts(es[..|es| - 1]) > 0 then 0 else n
      case WatchdogTimer => if !IsUp(es[..|es| - 1]) then n else if n == 2 then 0 else n + 1
      case _ => n
  }

  // What an event puts out after a history.
  function Outputs(es: seq<Event>, e: Event): seq<Output> {
    match e
    case Start(_) => if IsUp(es) then [] else [Post(Registration), Post(Heartbeat), Post(PluginStatus), Started]
    case Stop => if IsUp(es) then [Stopped] else []
    case Pause => if IsUp(es) && !IsPaused(es) then [Paused] else []
    case Resume => if IsUp(es) && IsPaused(es) then [Resumed] else []
    case HeartbeatTimer => if IsUp(es) then [Post(Heartbeat)] else []
    case StatusTimer => if IsUp(es) then [Post(PluginStatus)] else []
    case MetricsTimer => if IsUp(es) then [Post(Metrics), Push(if IsPaused(es) then "Paused" else "Running")] else []
    case WatchdogTimer => if IsUp(es) && Missed(es) == 2 then [Post(Heartbeat)] else []
  }

  function AllOutputs(es: seq<Event>): seq<Output> {
    if es == [] then [] else AllOutputs(es[..|es| - 1]) + Outputs(es[..|es| - 1], es[|es| - 1])
  }

  // The plugins of the last start, while up.
  function Kept(es: seq<Event>): nat {
    if es == [] then 0 else
      match es[|es| - 1]
      case Start(n) => if IsUp(es[..|es| - 1]) then Kept(es[..|es| - 1]) else n
      case Stop => 0
      case _ => Kept(es[..|es| - 1])
  }

  predicate Reads(c: Controller, up: bool, paused: bool, missed: nat, kept: nat, starts: nat) {
    c.running == up && c.paused == paused && c.missed == missed && c.plugins == kept && c.metricsTimers == starts
  }

  lemma NextReads(c: Controller, e: Event, es: seq<Event>)
    requires Coherent(c) && Reads(c, IsUp(es), IsPaused(es), Missed(es), Kept(es), EffectiveStarts(es))
    ensures Reads(Next(c, e), IsUp(es + [e]), IsPaused(es + [e]), Missed(es + [e]), Kept(es + [e]), EffectiveStarts(es + [e]))
    ensures Emits(c, e) == Outputs(es, e)
  {
    assert (es + [e])[..|es|] == es;
  }

  // The history decides everything that is put out, and in which order.
  lemma {:induction false} HistoryDecides(es: seq<Event>)
    ensures Run(es).out == AllOutputs(es)
    ensures Reads(Run(es).core, IsUp(es), IsPaused(es), Missed(es), Kept(es), EffectiveStarts(es))
  {
    if es != [] {
      var init, e := es[..|es| - 1], es[|es| - 1];
      HistoryDecides(init);
      AlwaysCoherent(init);
      assert es == init + [e];
      NextReads(Run(init).core, e, init);
    }
  }

  // ---- Status --------------------------------------------------------------------------------

  predicate IsSignal(o: Output) { !o.Post? && !o.Push? }

  // The last signal; Stopped before the first.
  function LastSignal(out: seq<Output>): Output {
    if out == [] then Stopped
    else if IsSignal(out[|out| - 1]) then out[|out| - 1]
    else LastSignal(out[..|out| - 1])
  }

  lemma {:induction false} LastSignalStays(out: seq<Output>, more: seq<Output>)
    requires forall o | o in more :: !IsSignal(o)
    ensures LastSignal(out + more) == LastSignal(out)
    decreases |more|
  {
    if more == [] {
      assert out + more == out;
    } else {
      assert more[|more| - 1] in more;
      assert (out + more)[..|out + more| - 1] == out + more[..|more| - 1];
      LastSignalStays(out, more[..|more| - 1]);
    }
  }

  lemma LastSignalLast(out: seq<Output>, more: seq<Output>)
    requires more != [] && IsSignal(more[|more| - 1])
    ensures LastSignal(out + more) == more[|more| - 1]
  {}

  predicate Signalled(s: State) {
    && (!s.core.running <==> LastSignal(s.out) == Stopped)
    && (s.core.running ==> (s.core.paused <==> LastSignal(s.out) == Paused))
  }

  lemma StepSignalled(s: State, e: Event)
    requires Signalled(s)
    ensures Signalled(Step(s, e))
  {
    var more := Emits(s.core, e);
    if more == [] {
      assert s.out + more == s.out;
    } else if IsTimer(e) {
      LastSignalStays(s.out, more);
    } else {
      LastSignalLast(s.out, more);
    }
  }

  lemma {:induction false} SignalsTell(es: seq<Event>)
    ensures Signalled(Run(es))
  {
    if es != [] {
      SignalsTell(es[..|es| - 1]);
      StepSignalled(Run(es[..|es| - 1]), es[|es| - 1]);
    }
  }

  // While running, the status string says what was last signalled. Stopping leaves m_paused alone,
  // so until the next start a stopped controller says "Stopped" exactly if it was not stopped while
  // paused.
  lemma StatusStringTells(es: seq<Event>, b: seq<Event>)
    requires Run(es).core.running && forall e | e in b :: !e.Start?
    ensures StatusString(true, Run(es).core.paused) == if LastSignal(Run(es).out) == Paused then "Paused" else "Running"
    ensures var c := Run(es + [Stop] + b).core;
            StatusString(c.running, c.paused) == "Stopped" <==> LastSignal(Run(es).out) != Paused
  {
    SignalsTell(es);
    AlwaysCoherent(es + [Stop]);
    RunSnoc(FRESH, es, Stop);
    RunConcat(FRESH, es + [Stop], b);
    DownStaysQuiet(Run(es + [Stop]), b);
  }

  // ---- Pausing -------------------------------------------------------------------------------

  // The same outputs but for the status string pushed.
  predicate SameWork(a: seq<Output>, b: seq<Output>) {
    |a| == |b| && forall i | 0 <= i < |a| :: a[i] == b[i] || (a[i].Push? && b[i].Push?)
  }

  lemma SameWorkAppends(a: seq<Output>, b: seq<Output>, c: seq<Output>, d: seq<Output>)
    requires SameWork(a, b) && SameWork(c, d)
    ensures SameWork(a + c, b + d)
  {}

  lemma TwinTicked(c: Controller)
    ensures Ticked(c.(paused := true)) == Ticked(c).(paused := true)
  {}

  lemma TwinNext(c: Controller, e: Event)
    requires IsTimer(e)
    ensures Next(c.(paused := true), e) == Next(c, e).(paused := true)
  {
    if e == MetricsTimer {
    } else if e == WatchdogTimer {
      if c.watchdogTimers > 0 { TwinTicked(c); }
    }
  }

  lemma TwinEmits(c: Controller, e: Event)
    requires IsTimer(e)
    ensures SameWork(Emits(c, e), Emits(c.(paused := true), e))
  {
    if e == MetricsTimer {
      SameWorkAppends(Sent(c, Metrics), Sent(c, Metrics), Pushed(c), Pushed(c.(paused := true)));
    } else {
      assert Emits(c, e) == Emits(c.(paused := true), e);
    }
  }

  // Pausing suspends nothing: whatever timers fire, a paused controller posts the same and pushes as
  // often as a running one, output by output; only the status string it pushes differs.
  lemma {:induction false} PauseSuspendsNothing(s: State, b: seq<Event>)
    requires forall e | e in b :: IsTimer(e)
    ensures var t := s.(core := s.core.(paused := true));
            && SameWork(RunFrom(s, b).out, RunFrom(t, b).out)
            && RunFrom(t, b).core == RunFrom(s, b).core.(paused := true)
  {
    if b != [] {
      var t, init, e := s.(core := s.core.(paused := true)), b[..|b| - 1], b[|b| - 1];
      var c := RunFrom(s, init).core;
      assert e in b;
      PauseSuspendsNothing(s, init);
      TwinNext(c, e);
      TwinEmits(c, e);
      SameWorkAppends(RunFrom(s, init).out, RunFrom(t, init).out, Emits(c, e), Emits(c.(paused := true), e));
    }
  }

  // ---- The watchdog --------------------------------------------------------------------------

  // The lengths of the maximal blocks of watchdog ticks with no metrics tick between.
  function Blocks(es: seq<Event>): (bs: seq<nat>)
    ensures bs != []
  {
    if es == [] then [0]
    else
      var bs, last := Blocks(es[..|es| - 1]), es[|es| - 1];
      if last.MetricsTimer? then bs + [0]
      else if last.WatchdogTimer? then bs[|bs| - 1 := bs[|bs| - 1] + 1]
      else bs
  }

  function SumOfThirds(bs: seq<nat>): nat {
    if bs == [] then 0 else SumOfThirds(bs[..|bs| - 1]) + bs[|bs| - 1] / 3
  }

  lemma BlockGrows(bs: seq<nat>, last: nat)
    requires bs != [] && last == bs[|bs| - 1]
    ensures SumOfThirds(bs + [0]) == SumOfThirds(bs)
    ensures SumOfThirds(bs[|bs| - 1 := last + 1]) == SumOfThirds(bs) + if last % 3 == 2 then 1 else 0
  {
    assert (bs + [0])[..|bs|] == bs;
    assert bs[|bs| - 1 := last + 1][..|bs| - 1] == bs[..|bs| - 1];
  }

  predicate Watched(c: Controller, base: nat, bs: seq<nat>) {
    && Coherent(c) && c.running && bs != []
    && c.recoveries == base + SumOfThirds(bs)
    && c.missed == bs[|bs| - 1] % 3
  }

  lemma NextWatched(c: Controller, e: Event, base: nat, bs: seq<nat>)
    requires Watched(c, base, bs) && e != Stop
    ensures Watched(Next(c, e), base, match e
      case MetricsTimer => bs + [0]
      case WatchdogTimer => bs[|bs| - 1 := bs[|bs| - 1] + 1]
      case _ => bs)
  {
    NextCoherent(c, e);
    BlockGrows(bs, bs[|bs| - 1]);
  }

  lemma {:induction false} StaysWatched(s: State, base: nat, b: seq<Event>)
    requires Watched(s.core, base, [0]) && Stop !in b
    ensures Watched(RunFrom(s, b).core, base, Blocks(b))
  {
    if b != [] {
      StaysWatched(s, base, b[..|b| - 1]);
      assert b[|b| - 1] in b;
      NextWatched(RunFrom(s, b[..|b| - 1]).core, b[|b| - 1], base, Blocks(b[..|b| - 1]));
    }
  }

  lemma StartWatches(c: Controller, n: nat)
    requires Coherent(c) && !c.running
    ensures Watched(Next(c, Start(n)), c.recoveries, [0])
  {}

  // Within one start, the watchdog recovers once for every three ticks of a block.
  lemma RecoveriesAreThirds(a: seq<Event>, n: nat, b: seq<Event>)
    requires !Run(a).core.running && Stop !in b
    ensures var c := Run(a + [Start(n)] + b).core;
            && c.running
            && c.recoveries == Run(a).core.recoveries + SumOfThirds(Blocks(b))
            && c.missed == Blocks(b)[|Blocks(b)| - 1] % 3
  {
    AlwaysCoherent(a);
    RunSnoc(FRESH, a, Start(n));
    RunConcat(FRESH, a + [Start(n)], b);
    StartWatches(Run(a).core, n);
    StaysWatched(Run(a + [Start(n)]), Run(a).core.recoveries, b);
  }
}
