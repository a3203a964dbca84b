/** service_controller.cpp: the controller object, the plugin loaders it owns, and the host's loops
    over them. A method that had to wait for a mutex its own thread holds would return Blocked.
 */
module ServiceController {
  import opened NetworkRates
  import opened Options
  import opened PluginLifecycle
  import Events = ControllerEvents

  // What QPluginLoader finds in a file.
  datatype Content = CannotLoad | NotAPlugin | IsPlugin

  datatype PluginFile = PluginFile(path: string, content: Content)

  class Loader {
    const path: string
    const plugin: Plugin?  // null if the instance is not an IPlugin
    var unloads: nat
    var deleted: bool

    constructor (path: string, plugin: Plugin?)
      ensures this.path == path && this.plugin == plugin && unloads == 0 && !deleted
    {
      this.path, this.plugin := path, plugin;
      unloads, deleted := 0, false;
    }

    // Unloading destroys the instance, whose destructor cleans up.
    method Unload() returns (o: Outcome)
      modifies this, plugin
      ensures unloads == old(unloads) + 1 && deleted == old(deleted)
      ensures plugin == null ==> o == Returned
      ensures plugin != null ==> o == OutcomeOf(old(plugin.Snapshot()), Cleanup)
                                 && plugin.Snapshot() == After(old(plugin.Snapshot()), Cleanup)
    {
      unloads := unloads + 1;
      o := Returned;
      if plugin != null {
        o := plugin.Cleanup();
      }
    }

    method Delete()
      modifies `deleted
      ensures deleted
    {
      deleted := true;
    }
  }

  const RUNNING := Life(Running, true, true, false, "")

  ghost predicate Distinct(ls: seq<Loader>) {
    forall i, j | 0 <= i < j < |ls| :: ls[i] != ls[j] && ls[i].plugin != ls[j].plugin
  }

  // Kept in the list: a plugin that runs, its mutex free, its loader in use.
  ghost predicate Kept(l: Loader)
    reads l, l.plugin
  {
    l.plugin != null && l.plugin.Snapshot() == RUNNING && l.unloads == 0 && !l.deleted
  }

  // Torn down: the plugin as it was before it was initialised, its loader unloaded once and gone.
  ghost predicate TornDown(l: Loader)
    reads l, l.plugin
  {
    l.plugin != null && l.plugin.Snapshot() == PluginLifecycle.FRESH && l.unloads == 1 && l.deleted
  }

  // The files that hold a plugin, in the order of the directory.
  function Plugins(files: seq<PluginFile>): seq<string> {
    if files == [] then []
    else
      var last := files[|files| - 1];
      Plugins(files[..|files| - 1]) + if last.content == IsPlugin then [last.path] else []
  }

  // The loaders are those of `before` and one more for each path, in this order.
  ghost predicate Extends(ls: seq<Loader>, before: seq<Loader>, paths: seq<string>) {
    && before <= ls && |ls| == |before| + |paths|
    && forall k | 0 <= k < |paths| :: ls[|before| + k].path == paths[k]
  }

  class ServiceController {
    const meter: Meter // the static previous values of measureSystemMetrics

    var networkManager: bool
    var qtroHost: bool
    var serviceSource: bool
    var watchdogTimer: bool
    var running: bool
    var paused: bool
    var watchdogMissed: nat
    var loadedPlugins: seq<Loader>

    // The environment's view: active timers, and what was posted, pushed and signalled.
    var heartbeatTimers: nat
    var statusTimers: nat
    var metricsTimers: nat
    var watchdogTimers: nat
    ghost var recoveries: nat
    ghost var out: seq<Events.Output>

    ghost function Core(): Events.Controller
      reads this
    {
      Events.Controller(networkManager, qtroHost, serviceSource, watchdogTimer, running, paused,
                        watchdogMissed, |loadedPlugins|, heartbeatTimers, statusTimers, metricsTimers,
                        watchdogTimers, recoveries)
    }

    ghost function Snapshot(): Events.State
      reads this
    {
      Events.State(Core(), out)
    }

    ghost function Owned(): set<object>
      reads this
    {
      (set l: Loader | l in loadedPlugins :: l as object)
      + (set l: Loader | l in loadedPlugins && l.plugin != null :: l.plugin as object)
    }

    ghost predicate AllKept()
      reads this, Owned()
    {
      Distinct(loadedPlugins) && forall l | l in loadedPlugins :: Kept(l)
    }

    ghost predicate Valid()
      reads this, Owned()
    {
      Events.Coherent(Core()) && AllKept()
    }

    constructor (meter: Meter)
      ensures Valid() && Snapshot() == Events.FRESH && this.meter == meter
    {
      this.meter := meter;
      networkManager, qtroHost, serviceSource, watchdogTimer := false, false, false, false;
      running, paused, watchdogMissed, loadedPlugins := false, false, 0, [];
      heartbeatTimers, statusTimers, metricsTimers, watchdogTimers, recoveries, out := 0, 0, 0, 0, 0, [];
    }

    method LoadPlugin(file: PluginFile) returns (o: Outcome)
      requires AllKept()
      modifies `loadedPlugins
      ensures o == Returned && AllKept()
      ensures file.content != IsPlugin ==> loadedPlugins == old(loadedPlugins)
      ensures file.content == IsPlugin ==> Extends(loadedPlugins, old(loadedPlugins), [file.path])
                                           && fresh(loadedPlugins[|old(loadedPlugins)|])
                                           && fresh(loadedPlugins[|old(loadedPlugins)|].plugin)
    {
      o := Returned;
      match file.content {
        case CannotLoad =>
          var loader := new Loader(file.path, null);
          loader.Delete();
        case NotAPlugin =>
          var loader := new Loader(file.path, null);
          o := loader.Unload();
          loader.Delete();
        case IsPlugin =>
          var plugin := new Plugin();
          var loader := new Loader(file.path, plugin);
          var ok;
          o, ok := plugin.Initialize();
          if o == Blocked { return; }
          o := plugin.Start();
          if o == Blocked { return; }
          loadedPlugins := loadedPlugins + [loader];
      }
    }

    // Exactly the plugins among the files are kept, in their order, and kept running.
    method LoadPlugins(dirExists: bool, files: seq<PluginFile>) returns (o: Outcome)
      requires AllKept()
      modifies `loadedPlugins
      ensures o == Returned && AllKept()
      ensures Extends(loadedPlugins, old(loadedPlugins), if dirExists then Plugins(files) else [])
      ensures fresh(Owned() - old(Owned()))
    {
      o := Returned;
      if !dirExists { return; }
      for i := 0 to |files|
        invariant o == Returned && AllKept()
        invariant Extends(loadedPlugins, old(loadedPlugins), Plugins(files[..i]))
        invariant fresh(Owned() - old(Owned()))
      {
        o := LoadPlugin(files[i]);
        if o == Blocked { return; }
        assert files[..i + 1][..i] == files[..i];
      }
      assert files[..|files|] == files;
    }

    // Stop, clean up, unload: no plugin is running when it is cleaned up, so no call blocks, and
    // every kept loader is unloaded exactly once.
    method TearDown(loader: Loader) returns (o: Outcome)
      requires Kept(loader)
      modifies loader, loader.plugin
      ensures o == Returned && TornDown(loader)
    {
      if loader.plugin != null {
        o := loader.plugin.Stop();
        if o == Blocked { return; }
        o := loader.plugin.Cleanup();
        if o == Blocked { return; }
      }
      o := loader.Unload();
      loader.Delete();
    }

    method UnloadPlugins() returns (o: Outcome)
      requires AllKept()
      modifies `loadedPlugins, Owned()
      ensures o == Returned && loadedPlugins == []
      ensures forall l | l in old(loadedPlugins) :: TornDown(l)
    {
      o := Returned;
      for i := 0 to |loadedPlugins|
        invariant o == Returned && loadedPlugins == old(loadedPlugins) && Distinct(loadedPlugins)
        invariant forall j | 0 <= j < i :: TornDown(loadedPlugins[j])
        invariant forall j | i <= j < |loadedPlugins| :: Kept(loadedPlugins[j])
      {
        o := TearDown(loadedPlugins[i]);
        if o == Blocked { return; }
      }
      loadedPlugins := [];
    }

    // sendRegistration, sendHeartbeat and sendPluginStatus differ in what they post.
    method Send(kind: Events.Kind)
      modifies `out
      ensures out == old(out) + Events.Sent(old(Core()), kind)
    {
      if !networkManager { return; }
      out := out + [Events.Post(kind)];
    }

    method Register()
      requires networkManager
      modifies `out
      ensures out == old(out) + Events.ANNOUNCEMENT
    {
      Send(Events.Registration);
      Send(Events.Heartbeat);
      Send(Events.PluginStatus);
      assert out == old(out) + Events.ANNOUNCEMENT;
    }

    method Initialize(dirExists: bool, files: seq<PluginFile>) returns (o: Outcome)
      requires AllKept()
      modifies this
      ensures o == Returned && AllKept()
      ensures var was := old(Core());
              Core() == was.(network := true, host := true, source := true,
                             plugins := was.plugins + if dirExists then |Plugins(files)| else 0)
      ensures Extends(loadedPlugins, old(loadedPlugins), if dirExists then Plugins(files) else [])
      ensures out == old(out) + Events.ANNOUNCEMENT
      ensures fresh(Owned() - old(Owned()))
    {
      networkManager := true;
      serviceSource := true;
      qtroHost := true;
      o := LoadPlugins(dirExists, files);
      if o == Blocked { return; }
      Register();
    }

    method ArmTimers()
      modifies `heartbeatTimers, `statusTimers, `metricsTimers, `watchdogTimer, `watchdogTimers, `watchdogMissed
      ensures var was := old(Core());
              Core() == was.(heartbeatTimers := was.heartbeatTimers + 1, statusTimers := was.statusTimers + 1,
                             metricsTimers := was.metricsTimers + 1, watchdog := true,
                             watchdogTimers := was.watchdogTimers + 1, missed := 0)
    {
      heartbeatTimers := heartbeatTimers + 1;
      statusTimers := statusTimers + 1;
      metricsTimers := metricsTimers + 1;
      watchdogTimer, watchdogTimers := true, watchdogTimers + 1;
      watchdogMissed := 0;
    }

    method BeginRunning()
      modifies `running, `paused, `out
      modifies `heartbeatTimers, `statusTimers, `metricsTimers, `watchdogTimer, `watchdogTimers, `watchdogMissed
      ensures var was := old(Core());
              Core() == was.(running := true, paused := false, watchdog := true, missed := 0,
                             heartbeatTimers := was.heartbeatTimers + 1, statusTimers := was.statusTimers + 1,
                             metricsTimers := was.metricsTimers + 1, watchdogTimers := was.watchdogTimers + 1)
      ensures out == old(out) + [Events.Started]
    {
      running := true;
      paused := false;
      out := out + [Events.Started];
      ArmTimers();
    }

    static lemma Regroup(a: seq<Events.Output>, b: seq<Events.Output>, c: seq<Events.Output>)
      ensures (a + b) + c == a + (b + c)
    {}

    method Start(dirExists: bool, files: seq<PluginFile>) returns (o: Outcome)
      requires Valid()
      modifies this
      ensures o == Returned && Valid()
      ensures Snapshot() == Events.Step(old(Snapshot()), Events.Start(if dirExists then |Plugins(files)| else 0))
      ensures Extends(loadedPlugins, old(loadedPlugins), if dirExists && !old(running) then Plugins(files) else [])
      ensures fresh(Owned() - old(Owned()))
    {
      o := Returned;
      if running { return; }
      o := Initialize(dirExists, files);
      if o == Blocked { return; }
      Regroup(old(out), Events.ANNOUNCEMENT, [Events.Started]);
      BeginRunning();
      Events.NextCoherent(old(Core()), Events.Start(if dirExists then |Plugins(files)| else 0));
    }

    method Disconnect()
      modifies `watchdogTimer, `watchdogTimers, `qtroHost, `serviceSource, `networkManager
      ensures var was := old(Core());
              Core() == was.(network := false, host := false, source := false, watchdog := false,
                             watchdogTimers := if was.watchdog && was.watchdogTimers > 0 then was.watchdogTimers - 1 else was.watchdogTimers)
    {
      if watchdogTimer {
        watchdogTimer := false;
        if watchdogTimers > 0 {
          watchdogTimers := watchdogTimers - 1;
        }
      }
      if qtroHost {
        qtroHost := false;
      }
      serviceSource := false;
      if networkManager {
        networkManager := false;
      }
    }

    method Stop() returns (o: Outcome)
      requires Valid()
      modifies this, Owned()
      ensures o == Returned && Valid()
      ensures Snapshot() == Events.Step(old(Snapshot()), Events.Stop)
      ensures old(running) ==> forall l | l in old(loadedPlugins) :: TornDown(l)
      ensures loadedPlugins == [] && !running
    {
      o := Returned;
      if !running { return; }
      running := false;
      o := UnloadPlugins();
      if o == Blocked { return; }
      Disconnect();
      out := out + [Events.Stopped];
      Events.NextCoherent(old(Core()), Events.Stop);
    }

    method Pause()
      requires Valid()
      modifies `paused, `out
      ensures Valid() && Snapshot() == Events.Step(old(Snapshot()), Events.Pause)
    {
      if !running || paused { return; }
      paused := true;
      out := out + [Events.Paused];
    }

    method Resume()
      requires Valid()
      modifies `paused, `out
      ensures Valid() && Snapshot() == Events.Step(old(Snapshot()), Events.Resume)
    {
      if !running || !paused { return; }
      paused := false;
      out := out + [Events.Resumed];
    }

    method SendMetrics(posted: Sample)
      modifies `out, meter
      ensures out == old(out) + Events.Sent(old(Core()), Events.Metrics)
      ensures meter.prev == if networkManager then posted else old(meter.prev)
    {
      if !networkManager { return; }
      var unused := meter.Measure(posted);
      out := out + [Events.Post(Events.Metrics)];
    }

    // `rates`: the network rates that are pushed. Those of the first sample are not.
    method PushMetricsToSource(tick: Tick) returns (rates: Option<Rates>)
      modifies `out, `watchdogMissed, meter
      ensures Core() == old(Core()).(missed := 0)
      ensures out == old(out) + (Events.Sent(old(Core()), Events.Metrics) + Events.Pushed(old(Core())))
      ensures var was := if networkManager then tick.posted else old(meter.prev);
              if serviceSource then rates == RatesBetween(was, tick.pushed) && meter.prev == tick.pushed
              else rates == None && meter.prev == was
    {
      rates := None;
      SendMetrics(tick.posted);
      watchdogMissed := 0;
      if !serviceSource { return; }
      rates := meter.Measure(tick.pushed);
      out := out + [Events.Push(Events.StatusString(running, paused))];
    }

    method WatchdogTick()
      modifies `out, `watchdogMissed, `recoveries
      ensures Core() == Events.Ticked(old(Core()))
      ensures out == old(out) + if old(watchdogMissed) + 1 < 3 then [] else Events.Sent(old(Core()), Events.Heartbeat)
    {
      watchdogMissed := watchdogMissed + 1;
      if watchdogMissed >= 3 {
        if networkManager {
          Send(Events.Heartbeat);
        }
        recoveries := recoveries + 1;
        watchdogMissed := 0;
      }
    }

    // A timer's timeout, if one of its kind is active. Only a metrics tick of a running controller
    // samples the counters, twice, and pushes the rates between its own two samples.
    method Fire(e: Events.Event, tick: Tick) returns (rates: Option<Rates>)
      requires Valid() && Events.IsTimer(e)
      modifies `out, `watchdogMissed, `recoveries, meter
      ensures Valid() && Snapshot() == Events.Step(old(Snapshot()), e)
      ensures if e == Events.MetricsTimer && running then rates == RatesBetween(tick.posted, tick.pushed) && meter.prev == tick.pushed
              else rates == None && meter.prev == old(meter.prev)
    {
      rates := None;
      match e {
        case HeartbeatTimer => if heartbeatTimers > 0 { Send(Events.Heartbeat); }
        case StatusTimer => if statusTimers > 0 { Send(Events.PluginStatus); }
        case MetricsTimer => if metricsTimers > 0 { rates := PushMetricsToSource(tick); }
        case WatchdogTimer => if watchdogTimers > 0 { WatchdogTick(); }
      }
      Events.NextCoherent(old(Core()), e);
    }
  }

  // What the service does with a controller, destructor included: it always returns, and leaves
  // nothing behind but three timers of each start.
  method ServiceRun(meter: Meter, dirExists: bool, files: seq<PluginFile>) returns (controller: ServiceController, o: Outcome)
    ensures o == Returned && fresh(controller) && controller.Valid()
    ensures !controller.running && controller.metricsTimers == 1
  {
    controller := new ServiceController(meter);
    o := controller.Start(dirExists, files);
    if o == Blocked { return; }
    assert fresh(controller.Owned());
    o := controller.Stop();
    if o == Blocked { return; }
    o := controller.Stop(); // the destructor's
  }
}
