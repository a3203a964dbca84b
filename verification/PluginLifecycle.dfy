/** The life cycle that both plugins spell out in the same words: four calls, each under a
    non-recursive mutex. A call that has to wait for a mutex its own thread holds never returns;
    that is the outcome Blocked.
 */
module PluginLifecycle {

  datatype PluginStatus = Unloaded | Loaded | Running | Error

  datatype Call = Initialize | Start | Stop | Cleanup

  datatype Outcome = Returned | Blocked

  datatype Life = Life(status: PluginStatus, network: bool, timer: bool, held: bool, lastError: string)

  const FRESH := Life(Unloaded, false, false, false, "")

  function After(l: Life, c: Call): Life {
    if l.held then l else
    match c
    case Initialize =>
      if l.status != Unloaded then l.(lastError := "Plugin already initialized")
      else l.(network := true, status := Loaded, lastError := "")
    case Start =>
      if l.status != Loaded then l.(lastError := "Plugin not initialized")
      else l.(timer := true, status := Running, lastError := "")
    case Stop => if l.status != Running then l else l.(timer := false, status := Loaded)
    case Cleanup => if l.status == Running then l.(held := true) else l.(network := false, status := Unloaded)
  }

  // Once a call has blocked, the mutex stays locked.
  function OutcomeOf(l: Life, c: Call): Outcome { if After(l, c).held then Blocked else Returned }

  function Calls(l: Life, cs: seq<Call>): Life {
    if cs == [] then l else After(Calls(l, cs[..|cs| - 1]), cs[|cs| - 1])
  }

  // The timer exists exactly while running, the network manager exactly while not unloaded.
  predicate Consistent(l: Life) {
    && (l.timer <==> l.status == Running)
    && (l.network <==> l.status != Unloaded)
    && l.status != Error
  }

  lemma {:induction false} AlwaysConsistent(cs: seq<Call>)
    ensures Consistent(Calls(FRESH, cs))
  {
    if cs != [] {
      AlwaysConsistent(cs[..|cs| - 1]);
    }
  }

  // ---- Which call histories block ------------------------------------------------------------

  // Read off the history alone: initialised and not cleaned up since; then started and not
  // stopped since.
  ghost predicate LeavesLoaded(cs: seq<Call>) {
    exists i :: 0 <= i < |cs| && cs[i] == Initialize && Cleanup !in cs[i..]
  }

  ghost predicate LeavesRunning(cs: seq<Call>) {
    exists i, j :: 0 <= i < j < |cs| && cs[i] == Initialize && Cleanup !in cs[i..] && cs[j] == Start && Stop !in cs[j..]
  }

  lemma LoadedSnoc(cs: seq<Call>, c: Call)
    ensures LeavesLoaded(cs + [c]) <==> c == Initialize || (c != Cleanup && LeavesLoaded(cs))
  {
    var t := cs + [c];
    if LeavesLoaded(cs) && c != Cleanup {
      var i :| 0 <= i < |cs| && cs[i] == Initialize && Cleanup !in cs[i..];
      assert t[i..] == cs[i..] + [c];
      assert t[i] == Initialize && Cleanup !in t[i..];
    }
    if c == Initialize {
      assert t[|cs|..] == [c];
      assert t[|cs|] == Initialize && Cleanup !in t[|cs|..];
    }
    if i :| 0 <= i < |t| && t[i] == Initialize && Cleanup !in t[i..] {
      assert t[i..][|cs| - i] == c;
      if i < |cs| {
        assert t[i..] == cs[i..] + [c];
        assert cs[i] == Initialize && Cleanup !in cs[i..];
      }
    }
  }

  lemma RunningAppends(cs: seq<Call>, c: Call)
    requires (c == Start && LeavesLoaded(cs)) || (c != Cleanup && c != Stop && LeavesRunning(cs))
    ensures LeavesRunning(cs + [c])
  {
    var t := cs + [c];
    if c == Start && LeavesLoaded(cs) {
      var i :| 0 <= i < |cs| && cs[i] == Initialize && Cleanup !in cs[i..];
      assert t[i..] == cs[i..] + [c] && t[|cs|..] == [c];
      assert t[i] == Initialize && Cleanup !in t[i..] && t[|cs|] == Start && Stop !in t[|cs|..];
    } else {
      var i, j :| 0 <= i < j < |cs| && cs[i] == Initialize && Cleanup !in cs[i..] && cs[j] == Start && Stop !in cs[j..];
      assert t[i..] == cs[i..] + [c] && t[j..] == cs[j..] + [c];
      assert t[i] == Initialize && Cleanup !in t[i..] && t[j] == Start && Stop !in t[j..];
    }
  }

  lemma RunningWasLeft(cs: seq<Call>, c: Call)
    requires LeavesRunning(cs + [c])
    ensures (c == Start && LeavesLoaded(cs)) || (c != Cleanup && c != Stop && LeavesRunning(cs))
  {
    var t := cs + [c];
    var i, j :| 0 <= i < j < |t| && t[i] == Initialize && Cleanup !in t[i..] && t[j] == Start && Stop !in t[j..];
    assert t[i..] == cs[i..] + [c];
    assert cs[i] == Initialize && Cleanup !in cs[i..];
    if j < |cs| {
      assert t[j..] == cs[j..] + [c];
      assert cs[j] == Start && Stop !in cs[j..];
    }
  }

  lemma RunningSnoc(cs: seq<Call>, c: Call)
    ensures LeavesRunning(cs + [c]) <==>
              (c == Start && LeavesLoaded(cs)) || (c != Cleanup && c != Stop && LeavesRunning(cs))
  {
    if LeavesRunning(cs + [c]) {
      RunningWasLeft(cs, c);
    } else if (c == Start && LeavesLoaded(cs)) || (c != Cleanup && c != Stop && LeavesRunning(cs)) {
      RunningAppends(cs, c);
    }
  }

  lemma {:induction false} StatusFromHistory(cs: seq<Call>)
    ensures var l := Calls(FRESH, cs);
            !l.held ==> (l.status != Unloaded <==> LeavesLoaded(cs)) && (l.status == Running <==> LeavesRunning(cs))
  {
    AlwaysConsistent(cs);
    if cs != [] {
      var init, c := cs[..|cs| - 1], cs[|cs| - 1];
      assert cs == init + [c];
      StatusFromHistory(init);
      AlwaysConsistent(init);
      LoadedSnoc(init, c);
      RunningSnoc(init, c);
    }
  }

  ghost predicate LocksUpAt(cs: seq<Call>, k: int) {
    0 <= k < |cs| && cs[k] == Cleanup && LeavesRunning(cs[..k])
  }

  lemma LocksUpSnoc(cs: seq<Call>, c: Call)
    ensures (exists k :: LocksUpAt(cs + [c], k)) <==> (exists k :: LocksUpAt(cs, k)) || (c == Cleanup && LeavesRunning(cs))
  {
    var t := cs + [c];
    assert t[..|cs|] == cs;
    if k :| LocksUpAt(cs, k) {
      assert t[..k] == cs[..k] && LocksUpAt(t, k);
    }
    if k :| LocksUpAt(t, k) {
      if k < |cs| {
        assert t[..k] == cs[..k] && LocksUpAt(cs, k);
      }
    }
    if c == Cleanup && LeavesRunning(cs) {
      assert LocksUpAt(t, |cs|);
    }
  }

  // A plugin locks itself up exactly if somewhere it is cleaned up while its history leaves it
  // running: cleanup() takes the mutex and then calls stop(), which takes it again.
  lemma {:induction false} BlocksIff(cs: seq<Call>)
    ensures Calls(FRESH, cs).held <==> exists k :: LocksUpAt(cs, k)
  {
    if cs != [] {
      var init, c := cs[..|cs| - 1], cs[|cs| - 1];
      BlocksIff(init);
      StatusFromHistory(init);
      LocksUpSnoc(init, c);
      assert cs == init + [c];
    }
  }

  // ---- What lastError says -------------------------------------------------------------------

  // After one more call: a call out of order leaves its complaint, one in order clears the error,
  // and neither stop nor cleanup touches it.
  ghost function Message(cs: seq<Call>, c: Call, was: string): string {
    match c
    case Initialize => if LeavesLoaded(cs) then "Plugin already initialized" else ""
    case Start => if LeavesLoaded(cs) && !LeavesRunning(cs) then "" else "Plugin not initialized"
    case Stop | Cleanup => was
  }

  predicate SameLife(l: Life, m: Life) { l == m.(lastError := l.lastError) }

  lemma CallLeavesMessage(l: Life, cs: seq<Call>, c: Call)
    requires SameLife(l, Calls(FRESH, cs))
    ensures SameLife(After(l, c), Calls(FRESH, cs + [c]))
    ensures !l.held ==> After(l, c).lastError == Message(cs, c, l.lastError)
  {
    StatusFromHistory(cs);
    AlwaysConsistent(cs);
    CallsSnoc(FRESH, cs, c);
  }

  lemma CallsSnoc(l: Life, cs: seq<Call>, c: Call)
    ensures Calls(l, cs + [c]) == After(Calls(l, cs), c)
  {
    assert (cs + [c])[..|cs|] == cs;
  }

  // Whatever calls a plugin has returned from, the host's stop and cleanup, and the cleanup of the
  // destructor after it, return and leave nothing behind; cleanup alone does so unless they leave
  // the plugin running.
  lemma HostRunReturns(cs: seq<Call>)
    requires !Calls(FRESH, cs).held
    ensures var down := FRESH.(lastError := Calls(FRESH, cs).lastError);
            Calls(FRESH, cs + [Stop] + [Cleanup]) == down == Calls(FRESH, cs + [Stop] + [Cleanup] + [Cleanup])
    ensures Calls(FRESH, cs + [Cleanup]).held <==> LeavesRunning(cs)
  {
    AlwaysConsistent(cs);
    StatusFromHistory(cs);
    CallsSnoc(FRESH, cs, Stop);
    CallsSnoc(FRESH, cs + [Stop], Cleanup);
    CallsSnoc(FRESH, cs + [Stop] + [Cleanup], Cleanup);
    CallsSnoc(FRESH, cs, Cleanup);
  }

  class Plugin {
    var status: PluginStatus
    var network: bool // m_network is not null
    var timer: bool   // the plugin's timer is not null
    var held: bool    // m_mutex is locked
    var lastError: string

    function Snapshot(): Life
      reads this
    {
      Life(status, network, timer, held, lastError)
    }

    constructor ()
      ensures Snapshot() == FRESH
    {
      status, network, timer, held, lastError := Unloaded, false, false, false, "";
    }

    method Lock() returns (o: Outcome)
      modifies `held
      ensures held && (o == Blocked <==> old(held))
    {
      o := if held then Blocked else Returned;
      held := true;
    }

    method Initialize() returns (o: Outcome, ok: bool)
      modifies this
      ensures Snapshot() == After(old(Snapshot()), Call.Initialize)
      ensures o == OutcomeOf(old(Snapshot()), Call.Initialize)
      ensures ok <==> !old(held) && old(status) == Unloaded
    {
      ok := false;
      o := Lock();
      if o == Blocked { return; }
      if status != Unloaded {
        lastError := "Plugin already initialized";
      } else {
        network := true;
        status := Loaded;
        lastError := "";
        ok := true;
      }
      held := false;
    }

    method Start() returns (o: Outcome)
      modifies this
      ensures Snapshot() == After(old(Snapshot()), Call.Start)
      ensures o == OutcomeOf(old(Snapshot()), Call.Start)
    {
      o := Lock();
      if o == Blocked { return; }
      if status != Loaded {
        lastError := "Plugin not initialized";
      } else {
        timer := true;
        status := Running;
        lastError := "";
      }
      held := false;
    }

    method Stop() returns (o: Outcome)
      modifies this
      ensures Snapshot() == After(old(Snapshot()), Call.Stop)
      ensures o == OutcomeOf(old(Snapshot()), Call.Stop)
    {
      o := Lock();
      if o == Blocked { return; }
      if status == Running {
        if timer {
          timer := false;
        }
        status := Loaded;
      }
      held := false;
    }

    method Cleanup() returns (o: Outcome)
      modifies this
      ensures Snapshot() == After(old(Snapshot()), Call.Cleanup)
      ensures o == OutcomeOf(old(Snapshot()), Call.Cleanup)
    {
      o := Lock();
      if o == Blocked { return; }
      if status == Running {
        o := Stop();
        if o == Blocked { return; }
      }
      if network {
        network := false;
      }
      status := Unloaded;
      held := false;
    }
  }
}
