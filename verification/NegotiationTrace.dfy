/**
 What holds of every trace of the negotiation, however long and wherever it is cut off.
 */
module NegotiationTrace {
  import opened Common
  import opened Environment
  import opened Connect
  import opened Negotiation
  import Target

  /** The requests that were read. */
  function Reads(es: seq<Event>): seq<Request> {
    if es == [] then []
    else if es[0].RequestRead? then [es[0].request] + Reads(es[1..])
    else Reads(es[1..])
  }

  /** The responses that were attempted. */
  function Attempts(es: seq<Event>): seq<Status> {
    if es == [] then []
    else if es[0].WriteStarted? then [es[0].status] + Attempts(es[1..])
    else Attempts(es[1..])
  }

  lemma {:induction false} ReadsConcat(a: seq<Event>, b: seq<Event>)
    ensures Reads(a + b) == Reads(a) + Reads(b)
  {
    if a == [] {
      assert a + b == b;
    } else {
      assert (a + b)[1..] == a[1..] + b;
      ReadsConcat(a[1..], b);
    }
  }

  lemma {:induction false} AttemptsConcat(a: seq<Event>, b: seq<Event>)
    ensures Attempts(a + b) == Attempts(a) + Attempts(b)
  {
    if a == [] {
      assert a + b == b;
    } else {
      assert (a + b)[1..] == a[1..] + b;
      AttemptsConcat(a[1..], b);
    }
  }

  lemma {:induction false} PostsConcat(a: seq<Event>, b: seq<Event>)
    ensures Posts(a + b) == Posts(a) + Posts(b)
  {
    if a == [] {
      assert a + b == b;
    } else {
      assert (a + b)[1..] == a[1..] + b;
      PostsConcat(a[1..], b);
    }
  }

  lemma ProjectionsConcat(a: seq<Event>, b: seq<Event>)
    ensures Reads(a + b) == Reads(a) + Reads(b)
    ensures Attempts(a + b) == Attempts(a) + Attempts(b)
    ensures Posts(a + b) == Posts(a) + Posts(b)
  {
    ReadsConcat(a, b);
    AttemptsConcat(a, b);
    PostsConcat(a, b);
  }

  lemma ProjectOne(e: Event)
    ensures Reads([e]) == (if e.RequestRead? then [e.request] else [])
    ensures Attempts([e]) == (if e.WriteStarted? then [e.status] else [])
    ensures Posts([e]) == (if e.Posted? then [Post(e.ec, e.endpoint)] else [])
  {
    assert [e][1..] == [];
  }

  lemma ProjectTwo(d: Event, e: Event)
    ensures Reads([d, e]) == Reads([d]) + Reads([e])
    ensures Attempts([d, e]) == Attempts([d]) + Attempts([e])
    ensures Posts([d, e]) == Posts([d]) + Posts([e])
  {
    assert [d, e] == [d] + [e];
    ProjectionsConcat([d], [e]);
  }

  /** The responses owed to requests, in order: one each, fixed by the request alone or else by the
      outcome of its connect operation. */
  function Replies(requests: seq<Request>, posts: seq<Post>): seq<Status> {
    if requests == [] then []
    else
      match Refusal(requests[0])
      case Some(s) => [s] + Replies(requests[1..], posts)
      case None => if posts == [] then [] else [Report(posts[0].ec)] + Replies(requests[1..], posts[1..])
  }

  predicate IsStageEvent(e: Event) {
    e.StageStarted? || e.StageDone? || e.Posted?
  }

  lemma {:induction false} OnlyStageEvents(
      stages: seq<Stage>, host: string, service: string, script: seq<Completion>, endpoint: Endpoint)
    ensures forall e :: e in RunStages(stages, host, service, script, endpoint).events ==>
              IsStageEvent(e) && (e.StageStarted? ==> e.host == host && e.service == service)
    decreases |stages|
  {
    if stages == [] || script == [] || Fails(stages[0], script[0]) {
    } else {
      OnlyStageEvents(stages[1..], host, service, script[1..], if stages[0].Tcp? then script[0].endpoint else endpoint);
    }
  }

  lemma {:induction false} NothingElse(es: seq<Event>)
    requires forall e :: e in es ==> IsStageEvent(e)
    ensures Reads(es) == [] && Attempts(es) == []
  {
    if es == [] {
    } else {
      assert es[0] in es && forall e :: e in es[1..] ==> e in es;
      NothingElse(es[1..]);
    }
  }

  /** The events of one turn, in terms of what they project to. */
  predicate OneExchange(t: TurnRun) {
    var asked, posts, attempts := Reads(t.events), Posts(t.events), Attempts(t.events);
    if asked == [] then posts == [] && attempts == [] && t.next != Again
    else
      && |asked| == 1
      && match Refusal(asked[0])
         case Some(s) => posts == [] && attempts == [s] && (t.next == Again ==> !Ends(s))
         case None =>
           if posts == [] then attempts == [] && t.next == Waiting
           else |posts| == 1 && attempts == [Report(posts[0].ec)] && (t.next == Again ==> posts[0].ec != SUCCESS)
  }

  lemma ProjectionsResponding(before: seq<Event>, s: Status, script: seq<Completion>, ec: ErrorCode)
    ensures var es := Responding(before, s, script, ec).events;
            Reads(es) == Reads(before) && Posts(es) == Posts(before) && Attempts(es) == Attempts(before) + [s]
  {
    ProjectOne(WriteStarted(s));
    if script == [] {
      ProjectionsConcat(before, [WriteStarted(s)]);
    } else {
      ProjectOne(WriteDone(s, script[0].ec));
      ProjectTwo(WriteStarted(s), WriteDone(s, script[0].ec));
      ProjectionsConcat(before, [WriteStarted(s), WriteDone(s, script[0].ec)]);
    }
  }

  lemma ProjectionsServing(isSsl: bool, r: Request, script: seq<Completion>, ec: ErrorCode)
    ensures var run := Serving(isSsl, r, script, ec);
            && Reads(run.events) == []
            && match Refusal(r)
               case Some(s) =>
                 Posts(run.events) == [] && Attempts(run.events) == [s] && (run.next == Again ==> !Ends(s))
               case None =>
                 match Connecting(isSsl, r, script).posted
                 case None => Posts(run.events) == [] && Attempts(run.events) == [] && run.next == Waiting
                 case Some(p) =>
                   && Posts(run.events) == [p] && Attempts(run.events) == [Report(p.ec)]
                   && (run.next == Again ==> p.ec != SUCCESS)
  {
    match Refusal(r)
    case Some(s) => ProjectionsResponding([], s, script, ec);
    case None =>
      var a, run := Target.Parse(r.target), Connecting(isSsl, r, script);
      RunStagesOutcome(Stages(isSsl), a.host, a.port, script, NoEndpoint);
      OnlyStageEvents(Stages(isSsl), a.host, a.port, script, NoEndpoint);
      NothingElse(run.events);
      hide RunStages;
      match run.posted {
        case None =>
        case Some(p) => ProjectionsResponding(run.events, Report(p.ec), run.rest, p.ec);
      }
  }

  lemma TurnIsOneExchange(isSsl: bool, script: seq<Completion>, ec: ErrorCode)
    ensures OneExchange(Turn(isSsl, script, ec))
  {
    ProjectOne(ReadStarted);
    if script != [] && script[0].ec != SUCCESS {
      ProjectOne(ReadFailed(script[0].ec));
      ProjectTwo(ReadStarted, ReadFailed(script[0].ec));
    } else if script != [] {
      var r := script[0].request;
      var head := [ReadStarted, RequestRead(r)];
      ProjectOne(RequestRead(r));
      ProjectTwo(ReadStarted, RequestRead(r));
      ProjectionsServing(isSsl, r, script[1..], SUCCESS);
      hide Serving;
      ProjectionsConcat(head, Serving(isSsl, r, script[1..], SUCCESS).events);
    }
  }

  lemma {:induction false} RepliesFirst(t: TurnRun, requests: seq<Request>, posts: seq<Post>)
    requires OneExchange(t) && t.next == Again
    ensures Replies(Reads(t.events) + requests, Posts(t.events) + posts)
         == Attempts(t.events) + Replies(requests, posts)
  {
    var asked := Reads(t.events);
    assert (asked + requests)[1..] == requests;
    if Posts(t.events) == [] {
      assert Posts(t.events) + posts == posts;
    } else {
      assert (Posts(t.events) + posts)[1..] == posts;
    }
  }

  /** The responses attempted in a run are the replies to the requests read, in order and one each; only
      a request whose connect operation is still going on waits for its response. A response that ends
      the negotiation is the last thing attempted and answers the last request. */
  lemma {:induction false} AttemptsAreReplies(isSsl: bool, script: seq<Completion>, ec: ErrorCode)
    ensures var run := Negotiate(isSsl, script, ec);
            var asked, attempts := Reads(run.events), Attempts(run.events);
            && attempts == Replies(asked, Posts(run.events))
            && (|attempts| == |asked| || (!run.returned && |attempts| + 1 == |asked|))
            && forall i :: 0 <= i < |attempts| && Ends(attempts[i]) ==> i + 1 == |attempts| == |asked|
    decreases |script|
  {
    TurnConsumes(isSsl, script, ec);
    TurnIsOneExchange(isSsl, script, ec);
    var t := Turn(isSsl, script, ec);
    hide Turn;
    if t.next == Again {
      var run := Negotiate(isSsl, t.rest, t.ec);
      AttemptsAreReplies(isSsl, t.rest, t.ec);
      ProjectionsConcat(t.events, run.events);
      RepliesFirst(t, Reads(run.events), Posts(run.events));
    } else {
      assert Reads(t.events) != [] ==> Reads(t.events)[1..] == [];
      assert Posts(t.events) != [] ==> Posts(t.events)[1..] == [];
    }
  }

  // How a run ends.

  /** A turn's last event says how the turn ended. */
  predicate EndsProperly(es: seq<Event>, ec: ErrorCode, next: Next) {
    && es != []
    && var last := es[|es| - 1];
    match next
    case Waiting => last.ReadStarted? || last.StageStarted? || last.WriteStarted?
    case Return => (last == ReadFailed(ec) && ec != SUCCESS) || (last.WriteDone? && Ends(last.status) && last.ec == ec)
    case Again => last.WriteDone? && !Ends(last.status) && last.ec == ec
  }

  lemma {:induction false} WaitsForStage(
      stages: seq<Stage>, host: string, service: string, script: seq<Completion>, endpoint: Endpoint)
    ensures var run := RunStages(stages, host, service, script, endpoint);
            run.posted == None ==> run.events != [] && run.events[|run.events| - 1].StageStarted?
    decreases |stages|
  {
    if stages == [] || script == [] || Fails(stages[0], script[0]) {
    } else {
      WaitsForStage(stages[1..], host, service, script[1..], if stages[0].Tcp? then script[0].endpoint else endpoint);
    }
  }

  lemma ServingEndsProperly(isSsl: bool, r: Request, script: seq<Completion>, ec: ErrorCode)
    ensures var t := Serving(isSsl, r, script, ec);
            && EndsProperly(t.events, t.ec, t.next)
            && (t.next == Return ==>
                  var last := t.events[|t.events| - 1];
                  && r.verb == Verb.Connect
                  && last.WriteDone? && last.status == if r.keepAlive then Established else NotPersistent)
  {
    var a := Target.Parse(r.target);
    WaitsForStage(Stages(isSsl), a.host, a.port, script, NoEndpoint);
    hide RunStages;
  }

  lemma TurnEndsProperly(isSsl: bool, script: seq<Completion>, ec: ErrorCode)
    ensures var t := Turn(isSsl, script, ec);
            && EndsProperly(t.events, t.ec, t.next)
            && (t.next == Return && Reads(t.events) != [] ==>
                  var last := t.events[|t.events| - 1];
                  && Reads(t.events)[0].verb == Verb.Connect
                  && last.WriteDone?
                  && last.status == if Reads(t.events)[0].keepAlive then Established else NotPersistent)
            && (t.next == Return && Reads(t.events) == [] ==> t.ec != SUCCESS)
  {
    hide Serving;
    hide Reads;
    ProjectOne(ReadStarted);
    if script != [] && script[0].ec == SUCCESS {
      var r := script[0].request;
      ServingEndsProperly(isSsl, r, script[1..], SUCCESS);
      ProjectionsServing(isSsl, r, script[1..], SUCCESS);
      ProjectOne(RequestRead(r));
      ProjectTwo(ReadStarted, RequestRead(r));
      ReadsConcat([ReadStarted, RequestRead(r)], Serving(isSsl, r, script[1..], SUCCESS).events);
    } else if script != [] {
      ProjectOne(ReadFailed(script[0].ec));
      ProjectTwo(ReadStarted, ReadFailed(script[0].ec));
    }
  }

  /** The condition under which the handler enters the tunnel. */
  predicate EntersTunnel(run: Negotiated) {
    run.returned && run.ec == SUCCESS
  }

  /** The tunnel is entered exactly when the last thing that happened is the successful write of the 200
      or of the 400 that refuses a request without persistence. The last request was then a CONNECT request, and
      it was the 200 if and only if that asked for persistence. */
  lemma {:induction false} TunnelExactly(isSsl: bool, script: seq<Completion>, ec: ErrorCode)
    ensures var run := Negotiate(isSsl, script, ec);
            && run.events != []
            && var last := run.events[|run.events| - 1];
            && (EntersTunnel(run) <==> last == WriteDone(Established, 0) || last == WriteDone(NotPersistent, 0))
            && (EntersTunnel(run) ==>
                  var asked := Reads(run.events);
                  && asked != [] && asked[|asked| - 1].verb == Verb.Connect
                  && last.status == if asked[|asked| - 1].keepAlive then Established else NotPersistent)
    decreases |script|
  {
    TurnConsumes(isSsl, script, ec);
    TurnEndsProperly(isSsl, script, ec);
    TurnIsOneExchange(isSsl, script, ec);
    var t := Turn(isSsl, script, ec);
    hide Turn;
    if t.next != Again {
    } else {
      TunnelExactly(isSsl, t.rest, t.ec);
      ReadsConcat(t.events, Negotiate(isSsl, t.rest, t.ec).events);
    }
  }

  // Whether a remote host is connected.

  /** The event after which the session to the remote host is ready for use: its last stage succeeded. */
  function Ready(isSsl: bool): Event {
    StageDone(if isSsl then Handshake else Tcp, true, SUCCESS)
  }

  /** Setting the server name failed with error number zero. */
  const UNNAMED: Event := StageDone(ServerName, false, SUCCESS)

  lemma {:induction false} LastStageDone(
      stages: seq<Stage>, host: string, service: string, script: seq<Completion>, endpoint: Endpoint)
    requires stages != [] && stages[|stages| - 1] !in stages[..|stages| - 1]
    ensures StageDone(stages[|stages| - 1], true, SUCCESS) in RunStages(stages, host, service, script, endpoint).events
       <==> Passed(stages, script) == |stages|
    decreases |stages|
  {
    if script == [] || Fails(stages[0], script[0]) {
    } else if |stages| == 1 {
      assert RunStages(stages, host, service, script, endpoint).events[1] == StageDone(stages[0], true, SUCCESS);
    } else {
      var next := RunStages(
        stages[1..], host, service, script[1..], if stages[0].Tcp? then script[0].endpoint else endpoint);
      assert stages[0] == stages[..|stages| - 1][0];
      assert forall i :: 0 <= i < |stages| - 2 ==> stages[1..][i] == stages[..|stages| - 1][i + 1];
      LastStageDone(stages[1..], host, service, script[1..], if stages[0].Tcp? then script[0].endpoint else endpoint);
    }
  }

  lemma {:induction false} OnlyOwnStages(
      stages: seq<Stage>, host: string, service: string, script: seq<Completion>, endpoint: Endpoint, stage: Stage)
    requires stage !in stages
    ensures forall e :: e in RunStages(stages, host, service, script, endpoint).events ==>
              e.StageDone? ==> e.stage != stage
    decreases |stages|
  {
    if stages == [] || script == [] || Fails(stages[0], script[0]) {
    } else {
      OnlyOwnStages(
        stages[1..], host, service, script[1..], if stages[0].Tcp? then script[0].endpoint else endpoint, stage);
    }
  }

  /** A trace attempts a 200 exactly if in it the session became ready or the server name failed with error
      number zero; not both happen, and the latter only with TLS. */
  predicate Linked(isSsl: bool, es: seq<Event>, established: bool) {
    && (established <==> Ready(isSsl) in es || UNNAMED in es)
    && !(Ready(isSsl) in es && UNNAMED in es)
    && (UNNAMED in es ==> isSsl)
  }

  lemma StagesLinked(isSsl: bool, host: string, service: string, script: seq<Completion>)
    ensures var run := RunStages(Stages(isSsl), host, service, script, NoEndpoint);
            Linked(isSsl, run.events, run.posted.Some? && run.posted.value.ec == SUCCESS)
  {
    var stages := Stages(isSsl);
    var run := RunStages(stages, host, service, script, NoEndpoint);
    LastStageDone(stages, host, service, script, NoEndpoint);
    if run.posted.Some? {
      ReportsSuccessExactly(isSsl, host, service, script, run.posted.value.endpoint);
    }
    RunStagesOutcome(stages, host, service, script, NoEndpoint);
    if isSsl && script != [] && script[0].accepted {
      assert stages[1..] == [Resolve, Tcp, Handshake];
      OnlyOwnStages(stages[1..], host, service, script[1..], NoEndpoint, ServerName);
    } else if isSsl && script != [] {
      assert run.events[1] == StageDone(ServerName, false, ToInt(script[0].ec));
    } else if !isSsl {
      OnlyOwnStages(stages, host, service, script, NoEndpoint, ServerName);
    }
  }

  lemma ServingLinked(isSsl: bool, r: Request, script: seq<Completion>, ec: ErrorCode)
    ensures var es := Serving(isSsl, r, script, ec).events;
            Linked(isSsl, es, Established in Attempts(es))
  {
    ProjectionsServing(isSsl, r, script, ec);
    var stages, response := ServingParts(isSsl, r, script, ec);
    StagesLinked(isSsl, Target.Parse(r.target).host, Target.Parse(r.target).port, script);
    hide Serving;
    hide RunStages;
    hide Target.Parse;
    hide Stages;
    hide Attempts;
    assert Ready(isSsl) in stages + response <==> Ready(isSsl) in stages;
    assert UNNAMED in stages + response <==> UNNAMED in stages;
  }

  lemma TurnLinked(isSsl: bool, script: seq<Completion>, ec: ErrorCode)
    ensures var t := Turn(isSsl, script, ec);
            && Linked(isSsl, t.events, Established in Attempts(t.events))
            && (t.next == Again ==> Established !in Attempts(t.events))
  {
    hide Serving;
    hide Attempts;
    TurnIsOneExchange(isSsl, script, ec);
    hide Reads;
    hide Posts;
    ProjectOne(ReadStarted);
    if script == [] {
    } else if script[0].ec != SUCCESS {
      ProjectOne(ReadFailed(script[0].ec));
      ProjectTwo(ReadStarted, ReadFailed(script[0].ec));
    } else {
      var r := script[0].request;
      var head, run := [ReadStarted, RequestRead(r)], Serving(isSsl, r, script[1..], SUCCESS);
      ServingLinked(isSsl, r, script[1..], SUCCESS);
      ProjectOne(RequestRead(r));
      ProjectTwo(ReadStarted, RequestRead(r));
      AttemptsConcat(head, run.events);
      assert Turn(isSsl, script, ec).events == head + run.events;
      hide Turn;
      assert Attempts(head + run.events) == Attempts(run.events);
      assert forall e :: e in head + run.events <==> e in head || e in run.events;
    }
  }

  lemma {:induction false} RunLinked(isSsl: bool, script: seq<Completion>, ec: ErrorCode)
    ensures var es := Negotiate(isSsl, script, ec).events;
            Linked(isSsl, es, Established in Attempts(es))
    decreases |script|
  {
    var t := Turn(isSsl, script, ec);
    TurnLinked(isSsl, script, ec);
    var later := FirstTurn(isSsl, script, ec);
    hide Turn;
    hide Negotiate;
    if t.next == Again {
      RunLinked(isSsl, t.rest, t.ec);
      AttemptsConcat(t.events, later);
    } else {
      assert t.events + later == t.events;
    }
  }

  lemma ServingDone(isSsl: bool, r: Request, script: seq<Completion>, ec: ErrorCode)
    ensures var t := Serving(isSsl, r, script, ec);
            t.next == Return ==>
              && t.events != [] && t.events[|t.events| - 1].WriteDone?
              && t.events[|t.events| - 1].status in Attempts(t.events)
  {
    match Refusal(r)
    case Some(s) => ProjectionsResponding([], s, script, ec);
    case None =>
      var run := Connecting(isSsl, r, script);
      hide Connecting;
      match run.posted {
        case None =>
        case Some(p) => ProjectionsResponding(run.events, Report(p.ec), run.rest, p.ec);
      }
  }

  /** A run that enters the tunnel has attempted the response whose write ends it. */
  lemma {:induction false} LastWasAttempted(isSsl: bool, script: seq<Completion>, ec: ErrorCode)
    requires EntersTunnel(Negotiate(isSsl, script, ec))
    ensures var es := Negotiate(isSsl, script, ec).events;
            es != [] && es[|es| - 1].WriteDone? && es[|es| - 1].status in Attempts(es)
    decreases |script|
  {
    TurnConsumes(isSsl, script, ec);
    var t := Turn(isSsl, script, ec);
    if t.next == Again {
      hide Turn;
      LastWasAttempted(isSsl, t.rest, t.ec);
      AttemptsConcat(t.events, Negotiate(isSsl, t.rest, t.ec).events);
    } else {
      var r := script[0].request;
      var head, run := [ReadStarted, RequestRead(r)], Serving(isSsl, r, script[1..], SUCCESS);
      ServingDone(isSsl, r, script[1..], SUCCESS);
      hide Serving;
      AttemptsConcat(head, run.events);
    }
  }

  /** Whether the tunnel leads anywhere. A run that enters the tunnel has a session ready for use if and
      only if the last request asked for persistence and, with TLS, setting the server name did not fail
      with error number zero. */
  lemma {:induction false} ConnectedExactly(isSsl: bool, script: seq<Completion>, ec: ErrorCode)
    requires EntersTunnel(Negotiate(isSsl, script, ec))
    ensures var es := Negotiate(isSsl, script, ec).events;
            && Reads(es) != []
            && (Ready(isSsl) in es <==> Reads(es)[|Reads(es)| - 1].keepAlive && UNNAMED !in es)
            && (UNNAMED in es ==> isSsl)
  {
    var es := Negotiate(isSsl, script, ec).events;
    TunnelExactly(isSsl, script, ec);
    AttemptsAreReplies(isSsl, script, ec);
    RunLinked(isSsl, script, ec);
    LastWasAttempted(isSsl, script, ec);
    hide Negotiate;
    hide Attempts;
    hide Reads;
    hide Replies;
    var attempts, status := Attempts(es), es[|es| - 1].status;
    if Established in attempts {
      var i :| 0 <= i < |attempts| && attempts[i] == Established;
      var j :| 0 <= j < |attempts| && attempts[j] == status;
      assert Ends(attempts[i]) && Ends(attempts[j]);
    }
  }

  /** Without TLS, as the proxy makes its session: the tunnel leads to a connected remote host if and only
      if the last request asked for persistence. No earlier turn of the loop leaves a connection behind. */
  lemma {:induction false} PlainConnectedExactly(script: seq<Completion>, ec: ErrorCode)
    requires EntersTunnel(Negotiate(false, script, ec))
    ensures var es := Negotiate(false, script, ec).events;
            && Reads(es) != []
            && (StageDone(Tcp, true, SUCCESS) in es <==> Reads(es)[|Reads(es)| - 1].keepAlive)
  {
    hide Negotiate;
    hide Reads;
    ConnectedExactly(false, script, ec);
  }

  /** A client that declines persistence gets its 400 and then the tunnel, with no connection made. */
  lemma TunnelWithoutConnection()
    ensures var refused := PLAIN.(request := Request(Verb.Connect, false, "example.org:443"));
            var run := Negotiate(false, [refused, refused], SUCCESS);
            && EntersTunnel(run)
            && run.events == [ReadStarted, RequestRead(refused.request), WriteStarted(NotPersistent),
                              WriteDone(NotPersistent, SUCCESS)]
  {
  }

  /** With TLS there is another way: a persistent request, a server name refused with error number zero,
      a 200, and the tunnel, with no connection made. */
  lemma TunnelAfterNameFailure()
    ensures var asked := PLAIN.(accepted := false, request := Request(Verb.Connect, true, "example.org:443"));
            var a := Target.Parse(asked.request.target);
            var run := Negotiate(true, [asked, asked, asked], SUCCESS);
            && EntersTunnel(run)
            && run.events == [ReadStarted, RequestRead(asked.request)] + NameFailure(a.host, a.port)
                           + [WriteStarted(Established), WriteDone(Established, SUCCESS)]
  {
    var asked := PLAIN.(accepted := false, request := Request(Verb.Connect, true, "example.org:443"));
    hide Target.Parse;
    var script := [asked, asked, asked];
    var a := Target.Parse(asked.request.target);
    assert script[1..][0] == asked && script[1..][1..] == [asked];
    assert RunStages(Stages(true), a.host, a.port, script[1..], NoEndpoint)
        == ConnectRun(NameFailure(a.host, a.port), [asked], Some(Post(SUCCESS, NoEndpoint)));
    hide RunStages;
    assert Turn(true, script, SUCCESS).next == Return;
  }

  // What precedes a 200.

  /** The events of a connect operation in which every stage succeeds. */
  function SuccessChain(isSsl: bool, host: string, port: string, ep: Endpoint): seq<Event> {
    (if isSsl then [StageStarted(ServerName, host, port), StageDone(ServerName, true, SUCCESS)] else [])
    + [StageStarted(Resolve, host, port), StageDone(Resolve, true, SUCCESS),
       StageStarted(Tcp, host, port), StageDone(Tcp, true, SUCCESS)]
    + (if isSsl then [StageStarted(Handshake, host, port), StageDone(Handshake, true, SUCCESS)] else [])
    + [Posted(SUCCESS, ep)]
  }

  /** The events of one that fails to set the server name and reports error number zero. */
  function NameFailure(host: string, port: string): seq<Event> {
    [StageStarted(ServerName, host, port), StageDone(ServerName, false, SUCCESS), Posted(SUCCESS, NoEndpoint)]
  }

  predicate Succeeded(isSsl: bool, host: string, port: string, es: seq<Event>, ep: Endpoint) {
    es == SuccessChain(isSsl, host, port, ep) || (isSsl && es == NameFailure(host, port) && ep == NoEndpoint)
  }

  lemma HandshakeOnly(host: string, port: string, script: seq<Completion>, ep: Endpoint)
    requires RunStages([Handshake], host, port, script, ep).posted.Some?
    requires RunStages([Handshake], host, port, script, ep).posted.value.ec == SUCCESS
    ensures RunStages([Handshake], host, port, script, ep).events ==
            [StageStarted(Handshake, host, port), StageDone(Handshake, true, SUCCESS), Posted(SUCCESS, ep)]
    ensures RunStages([Handshake], host, port, script, ep).posted == Some(Post(SUCCESS, ep))
  {
    assert [Handshake][1..] == [];
  }

  lemma PlainStages(later: seq<Stage>, host: string, port: string, script: seq<Completion>)
    requires later == [] || later == [Handshake]
    requires RunStages([Resolve, Tcp] + later, host, port, script, NoEndpoint).posted.Some?
    requires RunStages([Resolve, Tcp] + later, host, port, script, NoEndpoint).posted.value.ec == SUCCESS
    ensures var run := RunStages([Resolve, Tcp] + later, host, port, script, NoEndpoint);
            run.events ==
              [StageStarted(Resolve, host, port), StageDone(Resolve, true, SUCCESS),
               StageStarted(Tcp, host, port), StageDone(Tcp, true, SUCCESS)]
              + (if later == [] then [] else [StageStarted(Handshake, host, port), StageDone(Handshake, true, SUCCESS)])
              + [Posted(SUCCESS, run.posted.value.endpoint)]
  {
    var stages := [Resolve, Tcp] + later;
    assert stages[1..] == [Tcp] + later && stages[1..][1..] == later;
    var ep := script[1].endpoint;
    assert script[1..][0] == script[1];
    assert RunStages(stages[1..], host, port, script[1..], NoEndpoint).posted
        == RunStages(later, host, port, script[1..][1..], ep).posted;
    if later != [] {
      HandshakeOnly(host, port, script[1..][1..], ep);
    }
  }

  lemma ConnectSucceeds(isSsl: bool, host: string, port: string, script: seq<Completion>)
    requires RunStages(Stages(isSsl), host, port, script, NoEndpoint).posted.Some?
    requires RunStages(Stages(isSsl), host, port, script, NoEndpoint).posted.value.ec == SUCCESS
    ensures var run := RunStages(Stages(isSsl), host, port, script, NoEndpoint);
            Succeeded(isSsl, host, port, run.events, run.posted.value.endpoint)
  {
    if isSsl {
      assert Stages(true)[1..] == [Resolve, Tcp] + [Handshake];
      if script[0].accepted {
        PlainStages([Handshake], host, port, script[1..]);
      }
    } else {
      assert Stages(false) == [Resolve, Tcp] + [];
      PlainStages([], host, port, script);
    }
  }

  /** An event of a connect operation, on the host and port of the request's target. */
  predicate IsStageOf(r: Request, e: Event) {
    IsStageEvent(e) && (e.StageStarted? ==> Target.Parse(r.target) == Target.Authority(e.host, e.service))
  }

  lemma RespondingAfter(before: seq<Event>, s: Status, script: seq<Completion>, ec: ErrorCode)
    ensures var response := Responding([], s, script, ec).events;
            && Responding(before, s, script, ec).events == before + response
            && response != [] && response[0] == WriteStarted(s)
            && forall k :: 0 < k < |response| ==> response[k].WriteDone?
  {
  }

  /** The parts of serving a request: the events of its connect operation (none if it was refused) and
      the response. */
  lemma ServingParts(isSsl: bool, r: Request, script: seq<Completion>, ec: ErrorCode)
    returns (stages: seq<Event>, response: seq<Event>)
    ensures Serving(isSsl, r, script, ec).events == stages + response
    ensures stages == if Refusal(r) == None then Connecting(isSsl, r, script).events else []
    ensures forall k :: 0 <= k < |stages| ==> IsStageOf(r, stages[k])
    ensures forall k :: 0 <= k < |response| ==> response[k].WriteStarted? || response[k].WriteDone?
    ensures forall k :: 0 <= k < |response| && response[k] == WriteStarted(Established) ==>
              && k == 0 && Refusal(r) == None
              && var posted := Connecting(isSsl, r, script).posted; posted.Some? && posted.value.ec == SUCCESS
  {
    var a, run := Target.Parse(r.target), Connecting(isSsl, r, script);
    OnlyStageEvents(Stages(isSsl), a.host, a.port, script, NoEndpoint);
    hide RunStages;
    match Refusal(r)
    case Some(s) =>
      RespondingAfter([], s, script, ec);
      stages, response := [], Responding([], s, script, ec).events;
    case None =>
      stages := run.events;
      assert forall k :: 0 <= k < |stages| ==> stages[k] in run.events;
      hide Target.Parse;
      match run.posted {
        case None => response := [];
        case Some(p) =>
          RespondingAfter(stages, Report(p.ec), run.rest, p.ec);
          hide Responding;
          response := Responding([], Report(p.ec), run.rest, p.ec).events;
      }
  }

  /** Event `i` starts writing a 200, and what stands between it and event `j`, the reading of a request
      that asks for a connection, is a connect operation that reported success. */
  predicate EstablishedAt(isSsl: bool, es: seq<Event>, j: nat, i: nat, ep: Endpoint) {
    && j < i < |es| && es[j].RequestRead? && es[i] == WriteStarted(Established)
    && Refusal(es[j].request) == None
    && var a := Target.Parse(es[j].request.target);
    Succeeded(isSsl, a.host, a.port, es[j + 1..i], ep)
  }

  /** Event `i` starts a stage for the request read at event `j`, and only stages stand between them. */
  predicate StageAt(es: seq<Event>, j: nat, i: nat) {
    && j < i < |es| && es[j].RequestRead? && es[i].StageStarted?
    && es[j].request.verb == Verb.Connect && es[j].request.keepAlive
    && Target.Parse(es[j].request.target) == Target.Authority(es[i].host, es[i].service)
    && forall k :: j < k < i ==> IsStageEvent(es[k])
  }

  lemma EstablishedWithin(isSsl: bool, a: seq<Event>, b: seq<Event>, j: nat, i: nat, ep: Endpoint)
    ensures EstablishedAt(isSsl, a, j, i, ep) ==> EstablishedAt(isSsl, a + b, j, i, ep)
    ensures EstablishedAt(isSsl, b, j, i, ep) ==> EstablishedAt(isSsl, a + b, |a| + j, |a| + i, ep)
  {
    hide Succeeded;
    if j < i < |a| {
      assert (a + b)[j + 1..i] == a[j + 1..i];
    }
    if j < i < |b| {
      assert (a + b)[|a| + j + 1..|a| + i] == b[j + 1..i];
    }
  }

  lemma StageWithin(a: seq<Event>, b: seq<Event>, j: nat, i: nat)
    ensures StageAt(a, j, i) ==> StageAt(a + b, j, i)
    ensures StageAt(b, j, i) ==> StageAt(a + b, |a| + j, |a| + i)
  {
    if StageAt(b, j, i) {
      assert forall k :: |a| + j < k < |a| + i ==> (a + b)[k] == b[k - |a|];
    }
  }

  lemma TurnEstablished(isSsl: bool, script: seq<Completion>, ec: ErrorCode, i: nat) returns (ep: Endpoint)
    requires i < |Turn(isSsl, script, ec).events| && Turn(isSsl, script, ec).events[i] == WriteStarted(Established)
    ensures EstablishedAt(isSsl, Turn(isSsl, script, ec).events, 1, i, ep)
  {
    hide Serving;
    hide RunStages;
    assert script != [] && script[0].ec == SUCCESS;
    var r, es := script[0].request, Turn(isSsl, script, ec).events;
    var stages, response := ServingParts(isSsl, r, script[1..], SUCCESS);
    assert es == [ReadStarted, RequestRead(r)] + (stages + response);
    hide Turn;
    assert i == |stages| + 2 && es[2..i] == stages;
    var run := Connecting(isSsl, r, script[1..]);
    ConnectSucceeds(isSsl, Target.Parse(r.target).host, Target.Parse(r.target).port, script[1..]);
    ep := run.posted.value.endpoint;
  }

  /** The trace of a run is the trace of its first turn and that of the turns after it. */
  lemma FirstTurn(isSsl: bool, script: seq<Completion>, ec: ErrorCode) returns (later: seq<Event>)
    ensures var t := Turn(isSsl, script, ec);
            && Negotiate(isSsl, script, ec).events == t.events + later
            && (t.next == Again ==> later == Negotiate(isSsl, t.rest, t.ec).events && |t.rest| < |script|)
            && (t.next != Again ==> later == [])
  {
    TurnConsumes(isSsl, script, ec);
    hide Turn;
    var t := Turn(isSsl, script, ec);
    later := if t.next == Again then Negotiate(isSsl, t.rest, t.ec).events else [];
  }

  /** Every attempted 200 comes right after a connect operation that reported success, and that right
      after the persistent CONNECT request whose target it parsed: resolving, connecting and, with TLS,
      setting the name and the handshake succeeded in that order for that host and port. With TLS there
      is the one exception of a name failure that carries no error number. */
  lemma {:induction false} EstablishedAfterSuccess(isSsl: bool, script: seq<Completion>, ec: ErrorCode, i: nat)
    returns (j: nat, ep: Endpoint)
    requires i < |Negotiate(isSsl, script, ec).events|
    requires Negotiate(isSsl, script, ec).events[i] == WriteStarted(Established)
    ensures EstablishedAt(isSsl, Negotiate(isSsl, script, ec).events, j, i, ep)
    decreases |script|
  {
    hide Turn;
    hide Negotiate;
    hide EstablishedAt;
    var t := Turn(isSsl, script, ec);
    var later := FirstTurn(isSsl, script, ec);
    if i < |t.events| {
      ep := TurnEstablished(isSsl, script, ec, i);
      j := 1;
      EstablishedWithin(isSsl, t.events, later, j, i, ep);
    } else {
      j, ep := EstablishedAfterSuccess(isSsl, t.rest, t.ec, i - |t.events|);
      EstablishedWithin(isSsl, t.events, later, j, i - |t.events|, ep);
      j := |t.events| + j;
    }
  }

  lemma TurnStage(isSsl: bool, script: seq<Completion>, ec: ErrorCode, i: nat)
    requires i < |Turn(isSsl, script, ec).events| && Turn(isSsl, script, ec).events[i].StageStarted?
    ensures StageAt(Turn(isSsl, script, ec).events, 1, i)
  {
    hide Serving;
    hide RunStages;
    assert script != [] && script[0].ec == SUCCESS;
    var r, es := script[0].request, Turn(isSsl, script, ec).events;
    var stages, response := ServingParts(isSsl, r, script[1..], SUCCESS);
    assert es == [ReadStarted, RequestRead(r)] + (stages + response);
    hide Turn;
    assert forall k :: 2 <= k <= i ==> es[k] == stages[k - 2];
  }

  /** No stage of a connect operation is ever started but for a persistent CONNECT request, the last one
      read, and on the host and port parsed from its target. */
  lemma {:induction false} ConnectsOnlyForPersistentConnect(isSsl: bool, script: seq<Completion>, ec: ErrorCode, i: nat)
    returns (j: nat)
    requires i < |Negotiate(isSsl, script, ec).events| && Negotiate(isSsl, script, ec).events[i].StageStarted?
    ensures StageAt(Negotiate(isSsl, script, ec).events, j, i)
    decreases |script|
  {
    hide Turn;
    hide Negotiate;
    hide StageAt;
    var t := Turn(isSsl, script, ec);
    var later := FirstTurn(isSsl, script, ec);
    if i < |t.events| {
      TurnStage(isSsl, script, ec, i);
      j := 1;
      StageWithin(t.events, later, j, i);
    } else {
      j := ConnectsOnlyForPersistentConnect(isSsl, t.rest, t.ec, i - |t.events|);
      StageWithin(t.events, later, j, i - |t.events|);
      j := |t.events| + j;
    }
  }
}
