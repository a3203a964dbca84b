/** proxy_plugin.cpp: the request and byte counters against the history of forwards and replies.
    A reply still pending when the network manager is deleted is never delivered.
 */
module ProxyPlugin {
  import opened PluginLifecycle

  datatype Event =
    | Forward(url: string, size: nat)  // executeWithParams("forward_request")
    | Answered(size: nat)              // a pending reply finishes without an error
    | Refused(error: string)           // a pending reply finishes with an error
    | Lifecycle(call: Call)

  datatype State = State(life: Life, handled: nat, bytes: nat, pending: nat)

  const NEW := State(FRESH, 0, 0, 0)

  function Step(s: State, e: Event): State {
    match e
    case Forward(url, n) =>
      if !s.life.held && url != "" && s.life.network then s.(handled := s.handled + 1, bytes := s.bytes + n, pending := s.pending + 1)
      else s
    case Answered(n) => if s.pending > 0 then s.(bytes := s.bytes + n, pending := s.pending - 1) else s
    case Refused(error) =>
      if s.pending > 0 then s.(life := s.life.(lastError := error), pending := s.pending - 1) else s
    case Lifecycle(c) =>
      var s' := s.(life := After(s.life, c));
      if c == Cleanup && !s'.life.held then s'.(handled := 0, bytes := 0, pending := 0) else s'
  }

  function Run(es: seq<Event>): State {
    if es == [] then NEW else Step(Run(es[..|es| - 1]), es[|es| - 1])
  }

  // ---- The history ---------------------------------------------------------------------------

  // Initialised and not cleaned up since.
  predicate Online(es: seq<Event>) {
    es != [] && match es[|es| - 1]
                case Lifecycle(Initialize) => true
                case Lifecycle(Cleanup) => false
                case _ => Online(es[..|es| - 1])
  }

  // The sizes of the requests issued since the last cleanup.
  function Issued(es: seq<Event>): seq<nat> {
    if es == [] then [] else
      match es[|es| - 1]
      case Forward(url, n) =>
        if url != "" && Online(es[..|es| - 1]) then Issued(es[..|es| - 1]) + [n] else Issued(es[..|es| - 1])
      case Lifecycle(Cleanup) => []
      case _ => Issued(es[..|es| - 1])
  }

  // The sizes of the successful responses delivered since the last cleanup.
  function Answers(es: seq<Event>): seq<nat> {
    if es == [] then [] else
      match es[|es| - 1]
      case Answered(n) => Answers(es[..|es| - 1]) + [n]
      case Lifecycle(Cleanup) => []
      case _ => Answers(es[..|es| - 1])
  }

  function Refusals(es: seq<Event>): nat {
    if es == [] then 0 else
      match es[|es| - 1]
      case Refused(_) => Refusals(es[..|es| - 1]) + 1
      case Lifecycle(Cleanup) => 0
      case _ => Refusals(es[..|es| - 1])
  }

  // Replies are delivered only for requests that wait for one.
  predicate Deliverable(es: seq<Event>) {
    es == [] ||
    (Deliverable(es[..|es| - 1]) &&
     (es[|es| - 1].Answered? || es[|es| - 1].Refused? ==>
        |Answers(es[..|es| - 1])| + Refusals(es[..|es| - 1]) < |Issued(es[..|es| - 1])|))
  }

  function Sum(ns: seq<nat>): nat {
    if ns == [] then 0 else Sum(ns[..|ns| - 1]) + ns[|ns| - 1]
  }

  lemma SumSnoc(ns: seq<nat>, n: nat)
    ensures Sum(ns + [n]) == Sum(ns) + n
  {
    assert (ns + [n])[..|ns|] == ns;
  }

  lemma OnlineStep(l: Life, c: Call)
    requires Consistent(l) && !After(l, c).held
    ensures !l.held && Consistent(After(l, c))
    ensures After(l, c).network == (if c == Initialize then true else if c == Cleanup then false else l.network)
  {}

  // Over every interleaving of forwards, replies and life cycle calls that does not block: each
  // issued request is counted once and is pending, answered or refused; the bytes are those of the
  // issued requests and of the successful responses.
  lemma {:induction false} Conservation(es: seq<Event>)
    requires Deliverable(es) && !Run(es).life.held
    ensures Consistent(Run(es).life) && Run(es).life.network == Online(es)
    ensures Run(es).handled == |Issued(es)| == Run(es).pending + |Answers(es)| + Refusals(es)
    ensures Run(es).bytes == Sum(Issued(es)) + Sum(Answers(es))
  {
    if es != [] {
      var init, e := es[..|es| - 1], es[|es| - 1];
      if e.Lifecycle? {
        HeldStays(Run(init).life, e.call);
      }
      Conservation(init);
      match e
      case Forward(url, n) => SumSnoc(Issued(init), n);
      case Answered(n) => SumSnoc(Answers(init), n);
      case Refused(_) =>
      case Lifecycle(c) => OnlineStep(Run(init).life, c);
    }
  }

  function CallsOf(es: seq<Event>): seq<Call> {
    if es == [] then []
    else CallsOf(es[..|es| - 1]) + if es[|es| - 1].Lifecycle? then [es[|es| - 1].call] else []
  }

  // The error of the last reply refused, or what the calls since then have made of it.
  ghost function LastError(es: seq<Event>): string {
    if es == [] then "" else
      match es[|es| - 1]
      case Refused(error) => error
      case Lifecycle(c) => Message(CallsOf(es[..|es| - 1]), c, LastError(es[..|es| - 1]))
      case _ => LastError(es[..|es| - 1])
  }

  // Nothing but the calls decides the life cycle; in particular nothing else blocks.
  lemma {:induction false} LifeFollowsCalls(es: seq<Event>)
    ensures SameLife(Run(es).life, Calls(FRESH, CallsOf(es)))
  {
    if es != [] {
      var init, e := es[..|es| - 1], es[|es| - 1];
      LifeFollowsCalls(init);
      if e.Lifecycle? {
        CallLeavesMessage(Run(init).life, CallsOf(init), e.call);
      } else {
        assert CallsOf(es) == CallsOf(init);
      }
    }
  }

  lemma {:induction false} LastErrorTells(es: seq<Event>)
    requires Deliverable(es) && !Run(es).life.held
    ensures Run(es).life.lastError == LastError(es)
  {
    if es != [] {
      var init, e := es[..|es| - 1], es[|es| - 1];
      if e.Lifecycle? {
        HeldStays(Run(init).life, e.call);
      }
      LastErrorTells(init);
      LifeFollowsCalls(init);
      if e.Lifecycle? {
        CallLeavesMessage(Run(init).life, CallsOf(init), e.call);
      }
      Conservation(init);
    }
  }

  lemma HeldStays(l: Life, c: Call)
    ensures l.held ==> After(l, c).held
  {}

  class ProxyPlugin {
    const life: Plugin
    var requestsHandled: nat
    var bytesTransferred: nat
    var pending: nat // replies the network manager still owes

    function Snapshot(): State
      reads this, life
    {
      State(life.Snapshot(), requestsHandled, bytesTransferred, pending)
    }

    constructor ()
      ensures Snapshot() == NEW && fresh(life)
    {
      life := new Plugin();
      requestsHandled, bytesTransferred, pending := 0, 0, 0;
    }

    method HandleProxyRequest(size: nat)
      modifies this
      ensures life.held == old(life.held)
      ensures Snapshot() == if old(life.network) then old(Snapshot()).(handled := old(requestsHandled) + 1,
                              bytes := old(bytesTransferred) + size, pending := old(pending) + 1) else old(Snapshot())
    {
      if !life.network { return; }
      pending := pending + 1;
      requestsHandled := requestsHandled + 1;
      bytesTransferred := bytesTransferred + size;
    }

    method ForwardRequest(url: string, size: nat) returns (o: Outcome, status: string)
      modifies this, life
      ensures Snapshot() == Step(old(Snapshot()), Forward(url, size))
      ensures o == Blocked <==> old(life.held)
      ensures o == Returned ==> status == if url == "" then "Missing URL parameter" else "request_forwarded"
    {
      status := "";
      o := life.Lock();
      if o == Blocked { return; }
      if url != "" {
        HandleProxyRequest(size);
        status := "request_forwarded";
      } else {
        status := "Missing URL parameter";
      }
      life.held := false;
    }

    // A pending reply finishes: with a body of some size, or an error.
    method OnRequestFinished(reply: Event)
      requires pending > 0 && (reply.Answered? || reply.Refused?)
      modifies `bytesTransferred, `pending, life`lastError
      ensures Snapshot() == Step(old(Snapshot()), reply)
    {
      pending := pending - 1;
      match reply {
        case Answered(size) => bytesTransferred := bytesTransferred + size;
        case Refused(error) => life.lastError := error;
      }
    }

    method Cleanup() returns (o: Outcome)
      modifies this, life
      ensures Snapshot() == Step(old(Snapshot()), Lifecycle(Call.Cleanup))
      ensures o == OutcomeOf(old(life.Snapshot()), Call.Cleanup)
    {
      o := life.Cleanup();
      if o == Blocked { return; }
      pending := 0; // children of the deleted network manager
      requestsHandled, bytesTransferred := 0, 0;
    }
  }
}
