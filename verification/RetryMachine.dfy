/** The retry behaviour of NetworkClient as a machine over posts, replies and its timer. As written,
    a reconnect goes through the public post functions, which zero the retry counter. The class
    documentation intends a bounded number of reconnects; there a reissue keeps the counter.
 */
module RetryMachine {
  import opened Backoff
  import opened Options

  datatype Policy = AsWritten | Intended

  datatype Config = Config(maxRetries: int, initialDelay: Millis, maxDelay: Millis)

  datatype Post = Json(url: string, data: string) | File(url: string, path: string)

  // What attemptReconnect reads.
  datatype Replay = Replay(url: string, data: string, path: string, isFile: bool)

  datatype Client = Client(
    retry: nat, replay: Replay, armed: bool,
    inFlight: nat,       // replies still owed
    reissues: seq<Post>, // by the timer
    delays: seq<Option<int>>) // every delay the timer was started with

  // `opens`: the file, if the post is of one, can be opened.
  datatype Event = UserPost(post: Post, opens: bool) | Fails | Succeeds | TimerFires(opens: bool)

  const IDLE := Client(0, Replay("", "", "", false), false, 0, [], [])

  function Remember(r: Replay, p: Post): Replay {
    match p
    case Json(url, data) => Replay(url, data, "", false)
    case File(url, path) => r.(url := url, path := path, isFile := true)
  }

  function Issue(c: Client, p: Post, opens: bool): Client {
    c.(replay := Remember(c.replay, p), inFlight := if p.Json? || opens then c.inFlight + 1 else c.inFlight)
  }

  function ToReissue(r: Replay): Post {
    if r.isFile && r.path != "" then File(r.url, r.path) else Json(r.url, r.data)
  }

  function Step(policy: Policy, cfg: Config, c: Client, e: Event): Client {
    match e
    case UserPost(p, opens) => Issue(c, p, opens).(retry := 0)
    case Fails =>
      if c.inFlight == 0 then c
      else if c.retry < cfg.maxRetries then
        c.(inFlight := c.inFlight - 1, retry := c.retry + 1, armed := true,
           delays := c.delays + [ComputedDelay(cfg.initialDelay, cfg.maxDelay, c.retry + 1)])
      else c.(inFlight := c.inFlight - 1)
    case Succeeds => if c.inFlight == 0 then c else c.(inFlight := c.inFlight - 1, retry := 0)
    case TimerFires(opens) =>
      if !c.armed then c else
        var p := ToReissue(c.replay);
        Issue(c, p, opens).(retry := if policy == AsWritten then 0 else c.retry,
                            armed := false, reissues := c.reissues + [p])
  }

  function RunFrom(policy: Policy, cfg: Config, c: Client, es: seq<Event>): Client {
    if es == [] then c else Step(policy, cfg, RunFrom(policy, cfg, c, es[..|es| - 1]), es[|es| - 1])
  }

  function Run(policy: Policy, cfg: Config, es: seq<Event>): Client { RunFrom(policy, cfg, IDLE, es) }

  lemma RunSnoc(policy: Policy, cfg: Config, es: seq<Event>, e: Event)
    ensures Run(policy, cfg, es + [e]) == Step(policy, cfg, Run(policy, cfg, es), e)
  {
    assert (es + [e])[..|es|] == es;
  }

  lemma FirstPost(policy: Policy, cfg: Config, p: Post, opens: bool)
    ensures Run(policy, cfg, [UserPost(p, opens)]) == Step(policy, cfg, IDLE, UserPost(p, opens))
  {
    RunSnoc(policy, cfg, [], UserPost(p, opens));
    assert [] + [UserPost(p, opens)] == [UserPost(p, opens)];
  }

  // ---- What is reissued ----------------------------------------------------------------------

  function LastPost(es: seq<Event>): Option<Post> {
    if es == [] then None
    else if es[|es| - 1].UserPost? then Some(es[|es| - 1].post)
    else LastPost(es[..|es| - 1])
  }

  predicate Replayable(p: Post) { p.File? ==> p.path != "" }

  // Whatever overlaps and whatever timer is still armed, a reconnect reissues the most recent
  // public post, and so leaves the replay state fixed - except that a post of a file with an empty
  // name never comes back as itself.
  lemma {:induction false} ReissuesLastPost(policy: Policy, cfg: Config, es: seq<Event>)
    requires LastPost(es).Some?
    ensures ToReissue(Run(policy, cfg, es).replay) == LastPost(es).value <==> Replayable(LastPost(es).value)
  {
    var init := es[..|es| - 1];
    if !es[|es| - 1].UserPost? {
      ReissuesLastPost(policy, cfg, init);
    }
  }

  // The timer is never armed before the first post.
  lemma {:induction false} NothingBeforeFirstPost(policy: Policy, cfg: Config, es: seq<Event>)
    requires LastPost(es).None?
    ensures Run(policy, cfg, es) == IDLE
  {
    if es != [] {
      NothingBeforeFirstPost(policy, cfg, es[..|es| - 1]);
    }
  }

  // So every reissue on record is the post that was the latest when the timer fired.
  lemma ReissueIsRecorded(policy: Policy, cfg: Config, es: seq<Event>, opens: bool)
    requires Run(policy, cfg, es).armed && LastPost(es).Some? && Replayable(LastPost(es).value)
    ensures Run(policy, cfg, es + [TimerFires(opens)]).reissues == Run(policy, cfg, es).reissues + [LastPost(es).value]
    ensures ToReissue(Run(policy, cfg, es + [TimerFires(opens)]).replay) == LastPost(es).value
  {
    ReissuesLastPost(policy, cfg, es);
    RunSnoc(policy, cfg, es, TimerFires(opens));
  }

  // A success does not disarm the timer: a post that went through is sent a second time when the
  // timer of an earlier one fires.
  lemma StaleTimerRepeats(policy: Policy, cfg: Config, p: Post, q: Post)
    requires cfg.maxRetries >= 1 && Replayable(q)
    ensures Run(policy, cfg, [UserPost(p, true), Fails, UserPost(q, true), Succeeds, TimerFires(true)]).reissues == [q]
  {
    var e1 := [UserPost(p, true)];
    var e2 := e1 + [Fails];
    var e3 := e2 + [UserPost(q, true)];
    var e4 := e3 + [Succeeds];
    RunSnoc(policy, cfg, [], UserPost(p, true));
    assert [] + [UserPost(p, true)] == e1;
    RunSnoc(policy, cfg, e1, Fails);
    RunSnoc(policy, cfg, e2, UserPost(q, true));
    RunSnoc(policy, cfg, e3, Succeeds);
    assert LastPost(e3) == Some(q);
    assert e4[..|e4| - 1] == e3;
    ReissueIsRecorded(policy, cfg, e4, true);
    assert e4 + [TimerFires(true)] == [UserPost(p, true), Fails, UserPost(q, true), Succeeds, TimerFires(true)];
  }

  // ---- What is sent --------------------------------------------------------------------------

  // A post goes out unless it is of a file that cannot be opened.
  predicate GoesOut(p: Post, opens: bool) {
    match p
    case Json(_, _) => true
    case File(_, _) => opens
  }

  // The requests sent: by posts, and by firings of an armed timer, which repeat the latest post - a
  // file with an empty name as JSON.
  function Sent(policy: Policy, cfg: Config, es: seq<Event>): nat {
    if es == [] then 0
    else
      var init := es[..|es| - 1];
      Sent(policy, cfg, init) +
      match es[|es| - 1]
      case UserPost(p, opens) => if GoesOut(p, opens) then 1 else 0
      case TimerFires(opens) =>
        if Run(policy, cfg, init).armed && LastPost(init).Some? && (GoesOut(LastPost(init).value, opens) || !Replayable(LastPost(init).value))
        then 1 else 0
      case _ => 0
  }

  // The replies delivered: none comes that is not owed.
  function Delivered(policy: Policy, cfg: Config, es: seq<Event>): nat {
    if es == [] then 0
    else
      var init := es[..|es| - 1];
      Delivered(policy, cfg, init) + if (es[|es| - 1].Fails? || es[|es| - 1].Succeeds?) && Run(policy, cfg, init).inFlight > 0 then 1 else 0
  }

  // The data of the last JSON post.
  function LastData(es: seq<Event>): string {
    if es == [] then ""
    else if es[|es| - 1].UserPost? && es[|es| - 1].post.Json? then es[|es| - 1].post.data
    else LastData(es[..|es| - 1])
  }

  // What is reissued: a file with an empty name comes back as the data of the last JSON post, sent
  // to the file's URL.
  lemma {:induction false} ReissueKind(policy: Policy, cfg: Config, es: seq<Event>)
    requires LastPost(es).Some?
    ensures ToReissue(Run(policy, cfg, es).replay)
         == if Replayable(LastPost(es).value) then LastPost(es).value else Json(LastPost(es).value.url, LastData(es))
  {
    DataIsLast(policy, cfg, es);
    if !es[|es| - 1].UserPost? {
      ReissueKind(policy, cfg, es[..|es| - 1]);
    }
  }

  lemma {:induction false} DataIsLast(policy: Policy, cfg: Config, es: seq<Event>)
    ensures Run(policy, cfg, es).replay.data == LastData(es)
  {
    if es != [] {
      DataIsLast(policy, cfg, es[..|es| - 1]);
      if LastPost(es[..|es| - 1]).None? {
        NothingBeforeFirstPost(policy, cfg, es[..|es| - 1]);
      }
    }
  }

  // Every request sent has been replied to or is in flight, and nothing else is.
  lemma {:induction false} RequestsAreConserved(policy: Policy, cfg: Config, es: seq<Event>)
    ensures Run(policy, cfg, es).inFlight + Delivered(policy, cfg, es) == Sent(policy, cfg, es)
  {
    if es != [] {
      var init := es[..|es| - 1];
      RequestsAreConserved(policy, cfg, init);
      if LastPost(init).Some? {
        ReissueKind(policy, cfg, init);
      } else {
        NothingBeforeFirstPost(policy, cfg, init);
      }
    }
  }

  // So posts of files that cannot be opened have no consequence.
  lemma {:induction false} UnopenedFilesSendNothing(policy: Policy, cfg: Config, es: seq<Event>)
    requires forall e | e in es && e.UserPost? :: e.post.File? && !e.opens
    ensures var c := Run(policy, cfg, es); c.inFlight == 0 && c.delays == [] && c.reissues == [] && !c.armed && c.retry == 0
  {
    if es != [] {
      assert es[|es| - 1] in es;
      UnopenedFilesSendNothing(policy, cfg, es[..|es| - 1]);
    }
  }

  // ---- When a success is final ---------------------------------------------------------------

  ghost predicate NoPosts(es: seq<Event>) { forall e | e in es :: !e.UserPost? }

  function Posted(policy: Policy, cfg: Config, c: Client, q: Post): Client {
    Step(policy, cfg, c, UserPost(q, true))
  }

  // If q is posted now: once a reply has brought success, nothing is reissued before the next post,
  // whatever failed and fired before that success and does so after it.
  ghost predicate SuccessIsFinal(policy: Policy, cfg: Config, c: Client, q: Post) {
    forall a, b | NoPosts(a) && NoPosts(b) && RunFrom(policy, cfg, Posted(policy, cfg, c, q), a).inFlight > 0 ::
      var done := Step(policy, cfg, RunFrom(policy, cfg, Posted(policy, cfg, c, q), a), Succeeds);
      RunFrom(policy, cfg, done, b).reissues == done.reissues
  }

  // Some failures and a success, and after that the timer sends q once more.
  ghost predicate SuccessIsRepeated(policy: Policy, cfg: Config, c: Client, q: Post) {
    exists a, b :: && NoPosts(a) && NoPosts(b) && RunFrom(policy, cfg, Posted(policy, cfg, c, q), a).inFlight > 0
      && var done := Step(policy, cfg, RunFrom(policy, cfg, Posted(policy, cfg, c, q), a), Succeeds);
         RunFrom(policy, cfg, done, b).reissues == done.reissues + [q]
  }

  // Nothing will arm the timer: no reply is owed, or no retry is allowed.
  predicate Spent(cfg: Config, c: Client) { !c.armed && (c.inFlight == 0 || cfg.maxRetries <= 0) }

  lemma {:induction false} SpentStaysSpent(policy: Policy, cfg: Config, c: Client, es: seq<Event>)
    requires Spent(cfg, c) && NoPosts(es)
    ensures Spent(cfg, RunFrom(policy, cfg, c, es)) && RunFrom(policy, cfg, c, es).reissues == c.reissues
  {
    if es != [] {
      assert es[|es| - 1] in es;
      SpentStaysSpent(policy, cfg, c, es[..|es| - 1]);
    }
  }

  // One request, which is in flight or waits for its timer.
  predicate Single(c: Client) { c.inFlight + (if c.armed then 1 else 0) <= 1 }

  lemma {:induction false} SingleStaysSingle(policy: Policy, cfg: Config, c: Client, es: seq<Event>)
    requires Single(c) && NoPosts(es)
    ensures Single(RunFrom(policy, cfg, c, es))
  {
    if es != [] {
      assert es[|es| - 1] in es;
      SingleStaysSingle(policy, cfg, c, es[..|es| - 1]);
    }
  }

  // A success of q is final exactly if, when q is posted, the timer is idle and no reply is owed
  // (or no retry is allowed). Otherwise q itself may be sent again after its success.
  lemma SuccessIsFinalIff(policy: Policy, cfg: Config, c: Client, q: Post)
    ensures SuccessIsFinal(policy, cfg, c, q) <==> Spent(cfg, c)
    ensures !Spent(cfg, c) && Replayable(q) ==> SuccessIsRepeated(policy, cfg, c, q)
  {
    if Spent(cfg, c) {
      SpentIsFinal(policy, cfg, c, q);
    } else {
      var a := if c.armed then [] else [Fails];
      RepeatRun(policy, cfg, c, q, a);
      assert NoPosts(a) && NoPosts([TimerFires(true)]);
    }
  }

  lemma SpentIsFinal(policy: Policy, cfg: Config, c: Client, q: Post)
    requires Spent(cfg, c)
    ensures SuccessIsFinal(policy, cfg, c, q)
  {
    var p := Posted(policy, cfg, c, q);
    forall a, b | NoPosts(a) && NoPosts(b) && RunFrom(policy, cfg, p, a).inFlight > 0
      ensures var done := Step(policy, cfg, RunFrom(policy, cfg, p, a), Succeeds);
              RunFrom(policy, cfg, done, b).reissues == done.reissues
    {
      if c.inFlight == 0 {
        SingleStaysSingle(policy, cfg, p, a);
      } else {
        SpentStaysSpent(policy, cfg, p, a);
      }
      SpentStaysSpent(policy, cfg, Step(policy, cfg, RunFrom(policy, cfg, p, a), Succeeds), b);
    }
  }

  lemma RepeatRun(policy: Policy, cfg: Config, c: Client, q: Post, a: seq<Event>)
    requires !Spent(cfg, c) && a == if c.armed then [] else [Fails]
    ensures RunFrom(policy, cfg, Posted(policy, cfg, c, q), a).inFlight > 0
    ensures var done := Step(policy, cfg, RunFrom(policy, cfg, Posted(policy, cfg, c, q), a), Succeeds);
            && |RunFrom(policy, cfg, done, [TimerFires(true)]).reissues| == |done.reissues| + 1
            && (Replayable(q) ==> RunFrom(policy, cfg, done, [TimerFires(true)]).reissues == done.reissues + [q])
  {
    var p := Posted(policy, cfg, c, q);
    assert [Fails][..0] == [] && [TimerFires(true)][..0] == [];
    assert RunFrom(policy, cfg, p, []) == p;
    var done := Step(policy, cfg, RunFrom(policy, cfg, p, a), Succeeds);
    assert done.armed && done.replay == p.replay;
    assert RunFrom(policy, cfg, done, []) == done;
    assert Replayable(q) ==> ToReissue(p.replay) == q;
  }

  // ---- As written: how far the counter gets --------------------------------------------------

  // The most replies ever owed at once.
  function Peak(cfg: Config, es: seq<Event>): nat {
    var now := Run(AsWritten, cfg, es).inFlight;
    if es == [] then now else
      var before := Peak(cfg, es[..|es| - 1]);
      if now > before then now else before
  }

  // The counter only climbs on failures of requests that overlap, so it never exceeds the number
  // of requests in flight at once, nor maxRetries; neither does the exponent of any delay.
  lemma {:induction false} CounterBoundedByOverlap(cfg: Config, es: seq<Event>)
    ensures var c := Run(AsWritten, cfg, es);
            && c.retry + c.inFlight <= Peak(cfg, es)
            && (c.retry > 0 ==> c.retry <= cfg.maxRetries)
            && forall d | d in c.delays :: exists k :: 1 <= k <= Min(Peak(cfg, es), cfg.maxRetries)
                                                    && d == ComputedDelay(cfg.initialDelay, cfg.maxDelay, k)
  {
    if es != [] {
      var init, e := es[..|es| - 1], es[|es| - 1];
      CounterBoundedByOverlap(cfg, init);
      var b, c := Run(AsWritten, cfg, init), Run(AsWritten, cfg, es);
      assert Peak(cfg, init) <= Peak(cfg, es);
      forall d | d in c.delays
        ensures exists k :: 1 <= k <= Min(Peak(cfg, es), cfg.maxRetries) && d == ComputedDelay(cfg.initialDelay, cfg.maxDelay, k)
      {
        if d in b.delays {
          var k :| 1 <= k <= Min(Peak(cfg, init), cfg.maxRetries) && d == ComputedDelay(cfg.initialDelay, cfg.maxDelay, k);
        } else {
          assert e == Fails && d == ComputedDelay(cfg.initialDelay, cfg.maxDelay, b.retry + 1);
          assert 1 <= b.retry + 1 <= Min(Peak(cfg, es), cfg.maxRetries);
        }
      }
    }
  }

  // With one request in flight at a time the counter never passes 1 and every delay is the first.
  lemma OneAtATime(cfg: Config, es: seq<Event>)
    requires Peak(cfg, es) <= 1
    ensures Run(AsWritten, cfg, es).retry <= 1
    ensures forall d | d in Run(AsWritten, cfg, es).delays :: d == Some(Min(cfg.initialDelay, cfg.maxDelay))
  {
    CounterBoundedByOverlap(cfg, es);
    DelayDoubles(cfg.initialDelay, cfg.maxDelay, 1);
  }

  // ---- Delays beyond 64 bits -----------------------------------------------------------------

  function Budget(cfg: Config): nat { if cfg.maxRetries > 0 then cfg.maxRetries else 0 }

  lemma {:induction false} DelaysAreBackoffs(policy: Policy, cfg: Config, es: seq<Event>)
    ensures var c := Run(policy, cfg, es);
            && c.retry <= Budget(cfg)
            && forall d | d in c.delays :: exists k :: 1 <= k <= Budget(cfg) && d == ComputedDelay(cfg.initialDelay, cfg.maxDelay, k)
  {
    if es != [] {
      DelaysAreBackoffs(policy, cfg, es[..|es| - 1]);
      var b, c := Run(policy, cfg, es[..|es| - 1]), Run(policy, cfg, es);
      forall d | d in c.delays
        ensures exists k :: 1 <= k <= Budget(cfg) && d == ComputedDelay(cfg.initialDelay, cfg.maxDelay, k)
      {
        if d !in b.delays {
          assert d == ComputedDelay(cfg.initialDelay, cfg.maxDelay, b.retry + 1);
        }
      }
    }
  }

  predicate AllDefined(ds: seq<Option<int>>) { forall d | d in ds :: d.Some? }

  // Overlapping requests that all fail: `posts` of them, of which `fails` have done so.
  function Overlapping(p: Post, posts: nat, fails: nat): seq<Event> {
    if fails > 0 then Overlapping(p, posts, fails - 1) + [Fails]
    else if posts > 0 then Overlapping(p, posts - 1, 0) + [UserPost(p, true)]
    else []
  }

  // They cause a delay each until the budget is used up, and none after that.
  lemma {:induction false} OverlapRun(policy: Policy, cfg: Config, p: Post, posts: nat, fails: nat)
    requires fails <= posts
    ensures var c := Run(policy, cfg, Overlapping(p, posts, fails));
            && c.inFlight == posts - fails && c.retry == Min(fails, Budget(cfg)) && c.reissues == []
            && c.delays == Delays(cfg.initialDelay, cfg.maxDelay, Min(fails, Budget(cfg)))
            && (c.armed <==> Min(fails, Budget(cfg)) > 0)
    decreases fails, posts
  {
    if fails > 0 {
      OverlapRun(policy, cfg, p, posts, fails - 1);
      RunSnoc(policy, cfg, Overlapping(p, posts, fails - 1), Fails);
    } else if posts > 0 {
      OverlapRun(policy, cfg, p, posts - 1, 0);
      RunSnoc(policy, cfg, Overlapping(p, posts - 1, 0), UserPost(p, true));
    }
  }

  // Every delay of every run is defined exactly if the last allowed retry fits into 64 bits; at most
  // 33 retries always do.
  lemma DelaysDefinedIff(policy: Policy, cfg: Config)
    ensures (forall es :: AllDefined(Run(policy, cfg, es).delays)) <==> AllFit(cfg.initialDelay, Budget(cfg))
    ensures cfg.maxRetries <= 33 ==> AllFit(cfg.initialDelay, Budget(cfg))
  {
    var n := Budget(cfg);
    if AllFit(cfg.initialDelay, n) {
      forall es ensures AllDefined(Run(policy, cfg, es).delays) {
        DelaysAreBackoffs(policy, cfg, es);
        forall d | d in Run(policy, cfg, es).delays ensures d.Some? {
          var k :| 1 <= k <= n && d == ComputedDelay(cfg.initialDelay, cfg.maxDelay, k);
          FitsEarlier(cfg.initialDelay, k, n);
          ComputedIff(cfg.initialDelay, cfg.maxDelay, k);
        }
      }
    } else {
      var p := Json("", "");
      OverlapRun(policy, cfg, p, n, n);
      ComputedIff(cfg.initialDelay, cfg.maxDelay, n);
      var delays := Run(policy, cfg, Overlapping(p, n, n)).delays;
      assert delays[n - 1] in delays && !AllDefined(delays);
    }
    if cfg.maxRetries <= 33 && n > 0 {
      FitsUpTo33(cfg.initialDelay, n);
    }
  }

  // ---- A run of failures ---------------------------------------------------------------------

  // n times the request fails and the timer fires, if it is armed.
  function Rounds(n: nat): seq<Event> {
    if n == 0 then [] else Rounds(n - 1) + [Fails] + [TimerFires(true)]
  }

  // One post, and n such rounds.
  function Failures(p: Post, n: nat): seq<Event> { [UserPost(p, true)] + Rounds(n) }

  // As written each delay is the first again.
  function DelaysMade(policy: Policy, cfg: Config, n: nat): seq<Option<int>> {
    if policy == AsWritten then Constant(cfg.initialDelay, cfg.maxDelay, n) else Delays(cfg.initialDelay, cfg.maxDelay, n)
  }

  lemma DelaysMadeGrow(policy: Policy, cfg: Config, n: nat)
    ensures n > 0 ==> DelaysMade(policy, cfg, n) == DelaysMade(policy, cfg, n - 1)
                        + [ComputedDelay(cfg.initialDelay, cfg.maxDelay, if policy == AsWritten then 1 else n)]
  {
    DelayDoubles(cfg.initialDelay, cfg.maxDelay, 1);
  }

  lemma RoundRun(policy: Policy, cfg: Config, p: Post, n: nat)
    requires n > 0
    ensures var c := Run(policy, cfg, Failures(p, n - 1));
            Run(policy, cfg, Failures(p, n)) == Step(policy, cfg, Step(policy, cfg, c, Fails), TimerFires(true))
  {
    var before := Failures(p, n - 1);
    assert Failures(p, n) == before + [Fails] + [TimerFires(true)];
    RunSnoc(policy, cfg, before, Fails);
    RunSnoc(policy, cfg, before + [Fails], TimerFires(true));
  }

  function Made(policy: Policy, cfg: Config, n: nat): nat {
    if policy == Intended then Min(n, Budget(cfg)) else if cfg.maxRetries > 0 then n else 0
  }

  // As written every failure is followed by a reissue; as intended only maxRetries of them are.
  lemma {:induction false} FailuresReissue(policy: Policy, cfg: Config, p: Post, n: nat)
    ensures var c := Run(policy, cfg, Failures(p, n));
            var made := Made(policy, cfg, n);
            && |c.reissues| == made && !c.armed
            && (c.inFlight == 1 || (c.inFlight == 0 && (policy == Intended || cfg.maxRetries <= 0) && n > made))
            && (c.inFlight == 1 ==> made == n)
            && c.retry == (if policy == AsWritten then 0 else made)
            && c.delays == DelaysMade(policy, cfg, made)
  {
    if n > 0 {
      FailuresReissue(policy, cfg, p, n - 1);
      RoundRun(policy, cfg, p, n);
      DelaysMadeGrow(policy, cfg, Made(policy, cfg, n));
    } else {
      FirstPost(policy, cfg, p, true);
      assert Failures(p, 0) == [UserPost(p, true)];
    }
  }

  // As written the delays of repeated failures are the documented ones exactly where doubling makes
  // no difference: for any number of failures, and for as many as there are documented retries.
  lemma BackoffAgreesIff(cfg: Config, p: Post)
    ensures var flat := cfg.initialDelay == 0 || cfg.initialDelay >= cfg.maxDelay;
            && (cfg.maxRetries > 0 ==>
                  ((forall n: nat :: Run(AsWritten, cfg, Failures(p, n)).delays == Documented(cfg.initialDelay, cfg.maxDelay, n)) <==> flat))
            && ((forall n: nat | n <= Budget(cfg) :: Run(AsWritten, cfg, Failures(p, n)).delays == Documented(cfg.initialDelay, cfg.maxDelay, n))
                <==> cfg.maxRetries <= 1 || flat)
  {
    forall n: nat
      ensures Run(AsWritten, cfg, Failures(p, n)).delays == Constant(cfg.initialDelay, cfg.maxDelay, if cfg.maxRetries > 0 then n else 0)
      ensures Constant(cfg.initialDelay, cfg.maxDelay, n) == Documented(cfg.initialDelay, cfg.maxDelay, n)
         <==> n <= 1 || cfg.initialDelay == 0 || cfg.initialDelay >= cfg.maxDelay
    {
      FailuresReissue(AsWritten, cfg, p, n);
      ConstantIff(cfg.initialDelay, cfg.maxDelay, n);
    }
    assert Run(AsWritten, cfg, Failures(p, 2)).delays == Constant(cfg.initialDelay, cfg.maxDelay, if cfg.maxRetries > 0 then 2 else 0);
  }

  // The documented budget: one post is reissued at most maxRetries times, whatever replies and
  // firings follow. As written it holds exactly if no retries are allowed at all.
  ghost predicate BudgetHolds(policy: Policy, cfg: Config, p: Post) {
    forall opens, es | NoPosts(es) :: |Run(policy, cfg, [UserPost(p, opens)] + es).reissues| <= Budget(cfg)
  }

  lemma {:induction false} RoundsHaveNoPosts(n: nat)
    ensures NoPosts(Rounds(n))
  {
    if n > 0 {
      RoundsHaveNoPosts(n - 1);
    }
  }

  lemma {:induction false} NoRetriesNoReissues(policy: Policy, cfg: Config, p: Post, opens: bool, es: seq<Event>)
    requires cfg.maxRetries <= 0 && NoPosts(es)
    ensures var c := Run(policy, cfg, [UserPost(p, opens)] + es); c.reissues == [] && !c.armed
  {
    var all := [UserPost(p, opens)] + es;
    if es == [] {
      FirstPost(policy, cfg, p, opens);
      assert all == [UserPost(p, opens)];
    } else {
      assert es[|es| - 1] in es;
      assert all == ([UserPost(p, opens)] + es[..|es| - 1]) + [es[|es| - 1]];
      NoRetriesNoReissues(policy, cfg, p, opens, es[..|es| - 1]);
      RunSnoc(policy, cfg, [UserPost(p, opens)] + es[..|es| - 1], es[|es| - 1]);
    }
  }

  lemma BudgetHoldsIff(cfg: Config, p: Post)
    ensures BudgetHolds(AsWritten, cfg, p) <==> cfg.maxRetries <= 0
    ensures BudgetHolds(Intended, cfg, p)
  {
    forall opens, es | NoPosts(es) ensures |Run(Intended, cfg, [UserPost(p, opens)] + es).reissues| <= Budget(cfg) {
      IntendedIsBounded(cfg, p, opens, es);
    }
    if cfg.maxRetries <= 0 {
      forall opens, es | NoPosts(es) ensures |Run(AsWritten, cfg, [UserPost(p, opens)] + es).reissues| <= Budget(cfg) {
        NoRetriesNoReissues(AsWritten, cfg, p, opens, es);
      }
    } else {
      var tooMany := Budget(cfg) + 1;
      RoundsHaveNoPosts(tooMany);
      FailuresReissue(AsWritten, cfg, p, tooMany);
      assert |Run(AsWritten, cfg, [UserPost(p, true)] + Rounds(tooMany)).reissues| > Budget(cfg);
    }
  }

  // ---- As intended: bounded, spaced out, terminating ------------------------------------------

  // One post's chain: the request is in flight, or its timer armed, or it has ended; while it goes
  // on, the counter is the number of delays so far.
  predicate Chain(cfg: Config, c: Client) {
    && c.inFlight + (if c.armed then 1 else 0) <= 1
    && c.delays == Delays(cfg.initialDelay, cfg.maxDelay, |c.delays|)
    && |c.delays| <= Budget(cfg)
    && |c.reissues| + (if c.armed then 1 else 0) == |c.delays|
    && (c.inFlight == 1 || c.armed ==> c.retry == |c.delays|)
  }

  function Rank(cfg: Config, c: Client): nat {
    var left := if Budget(cfg) >= c.retry then Budget(cfg) - c.retry else 0;
    if c.armed then 3 * left + 2 else if c.inFlight > 0 then 3 * left + 1 else 0
  }

  // Every event that does anything brings the chain closer to its end.
  lemma ChainDescends(cfg: Config, c: Client, e: Event)
    requires Chain(cfg, c) && !e.UserPost?
    ensures Chain(cfg, Step(Intended, cfg, c, e))
    ensures Step(Intended, cfg, c, e) == c || Rank(cfg, Step(Intended, cfg, c, e)) < Rank(cfg, c)
  {}

  // One post, then any failures, successes and firings in any order: at most maxRetries reissues,
  // spaced by the first delays in order; as long as they fit into 64 bits, these are the documented
  // ones, within the bound on their sum.
  lemma {:induction false} IntendedIsBounded(cfg: Config, p: Post, opens: bool, es: seq<Event>)
    requires NoPosts(es)
    ensures var c := Run(Intended, cfg, [UserPost(p, opens)] + es);
            && Chain(cfg, c)
            && |c.reissues| <= Budget(cfg)
            && c.delays == Delays(cfg.initialDelay, cfg.maxDelay, |c.delays|)
            && (Total(c.delays).Some? <==> AllFit(cfg.initialDelay, |c.delays|))
            && (AllFit(cfg.initialDelay, |c.delays|) ==>
                  && c.delays == Documented(cfg.initialDelay, cfg.maxDelay, |c.delays|)
                  && Total(c.delays).value <= Min(|c.delays| * cfg.maxDelay, cfg.initialDelay * (Pow2(|c.delays|) - 1)))
  {
    var all := [UserPost(p, opens)] + es;
    if es == [] {
      FirstPost(Intended, cfg, p, opens);
      assert all == [UserPost(p, opens)];
    } else {
      var init, e := es[..|es| - 1], es[|es| - 1];
      assert e in es;
      IntendedIsBounded(cfg, p, opens, init);
      assert all == ([UserPost(p, opens)] + init) + [e];
      RunSnoc(Intended, cfg, [UserPost(p, opens)] + init, e);
      ChainDescends(cfg, Run(Intended, cfg, [UserPost(p, opens)] + init), e);
    }
    TotalWait(cfg.initialDelay, cfg.maxDelay, |Run(Intended, cfg, all).delays|);
    DocumentedIff(cfg.initialDelay, cfg.maxDelay, |Run(Intended, cfg, all).delays|);
  }

  // What gives the budget back: a public post, a success and, as written, a reissue.
  function Resets(policy: Policy, es: seq<Event>): nat {
    if es == [] then 0
    else
      var e := es[|es| - 1];
      Resets(policy, es[..|es| - 1])
      + if e.UserPost? || e.Succeeds? || (policy == AsWritten && e.TimerFires?) then 1 else 0
  }

  // Over any posts, overlapping or not, each reset pays for at most maxRetries delays, and every
  // reissue has its own delay. As intended, reissues are no resets.
  lemma {:induction false} BudgetPerReset(policy: Policy, cfg: Config, es: seq<Event>)
    ensures var c := Run(policy, cfg, es);
            && c.retry <= Budget(cfg)
            && |c.delays| <= Budget(cfg) * Resets(policy, es) + c.retry
            && |c.reissues| + (if c.armed then 1 else 0) <= |c.delays|
  {
    if es != [] {
      var init, e := es[..|es| - 1], es[|es| - 1];
      BudgetPerReset(policy, cfg, init);
      StepSpends(policy, cfg, Run(policy, cfg, init), e, Budget(cfg) * Resets(policy, init));
      assert Budget(cfg) * (Resets(policy, init) + 1) == Budget(cfg) * Resets(policy, init) + Budget(cfg);
    }
  }

  lemma StepSpends(policy: Policy, cfg: Config, c: Client, e: Event, spent: nat)
    requires c.retry <= Budget(cfg) && |c.delays| <= spent + c.retry && |c.reissues| + (if c.armed then 1 else 0) <= |c.delays|
    ensures var d := Step(policy, cfg, c, e);
            && d.retry <= Budget(cfg) && |d.reissues| + (if d.armed then 1 else 0) <= |d.delays|
            && |d.delays| <= d.retry + if e.UserPost? || e.Succeeds? || (policy == AsWritten && e.TimerFires?) then spent + Budget(cfg) else spent
  {}

  // The events that change anything in a run that starts with one post.
  function Effective(cfg: Config, first: seq<Event>, es: seq<Event>): nat {
    if es == [] then 0
    else
      var init := es[..|es| - 1];
      Effective(cfg, first, init) + if Run(Intended, cfg, first + es) != Run(Intended, cfg, first + init) then 1 else 0
  }

  // As intended, one post dies down: whatever happens after it, at most 3 * maxRetries + 1 events
  // have any effect. As written there is no such bound, by FailuresReissue.
  lemma {:induction false} IntendedDiesDown(cfg: Config, p: Post, opens: bool, es: seq<Event>)
    requires NoPosts(es)
    ensures Effective(cfg, [UserPost(p, opens)], es) + Rank(cfg, Run(Intended, cfg, [UserPost(p, opens)] + es)) <= 3 * Budget(cfg) + 1
  {
    var first := [UserPost(p, opens)];
    if es == [] {
      FirstPost(Intended, cfg, p, opens);
      assert first + es == first;
    } else {
      var init, e := es[..|es| - 1], es[|es| - 1];
      assert e in es;
      IntendedDiesDown(cfg, p, opens, init);
      IntendedIsBounded(cfg, p, opens, init);
      assert first + es == (first + init) + [e];
      RunSnoc(Intended, cfg, first + init, e);
      ChainDescends(cfg, Run(Intended, cfg, first + init), e);
    }
  }
}
