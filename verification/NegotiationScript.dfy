/**
 What the trace of the negotiation says of the completions and of the requests themselves.
 */
module NegotiationScript {
  import opened Common
  import opened Environment
  import opened Connect
  import opened Negotiation
  import opened NegotiationTrace
  import Target

  // Every completion is recorded as it is.

  predicate IsDone(e: Event) {
    e.ReadFailed? || e.RequestRead? || e.StageDone? || e.WriteDone?
  }

  /** The events that record a completion. */
  function Dones(es: seq<Event>): seq<Event> {
    if es == [] then []
    else if IsDone(es[0]) then [es[0]] + Dones(es[1..])
    else Dones(es[1..])
  }

  /** The event says of the completion what its fields say. */
  predicate Records(e: Event, c: Completion) {
    match e
    case RequestRead(r) => c.ec == 0 && r == c.request
    case ReadFailed(ec) => c.ec != 0 && ec == c.ec
    case StageDone(ServerName, ok, ec) => ok == c.accepted && (ok ==> ec == 0) && (!ok ==> ec == ToInt(c.ec))
    case StageDone(_, ok, ec) => ec == c.ec && (ok <==> c.ec == 0)
    case WriteDone(_, ec) => ec == c.ec
    case _ => false
  }

  /** The completions up to `rest` are those that the events record, one by one. */
  predicate Recorded(dones: seq<Event>, script: seq<Completion>, rest: seq<Completion>) {
    && |dones| <= |script| && rest == script[|dones|..]
    && forall k :: 0 <= k < |dones| ==> Records(dones[k], script[k])
  }

  lemma {:induction false} DonesConcat(a: seq<Event>, b: seq<Event>)
    ensures Dones(a + b) == Dones(a) + Dones(b)
  {
    if a == [] {
      assert a + b == b;
    } else {
      assert (a + b)[1..] == a[1..] + b;
      DonesConcat(a[1..], b);
    }
  }

  lemma DoneOne(e: Event)
    ensures Dones([e]) == if IsDone(e) then [e] else []
  {
    assert [e][1..] == [];
  }

  lemma DoneTwo(d: Event, e: Event)
    ensures Dones([d, e]) == (if IsDone(d) then [d] else []) + (if IsDone(e) then [e] else [])
  {
    DoneOne(d);
    DoneOne(e);
    assert [d, e] == [d] + [e];
    DonesConcat([d], [e]);
  }

  lemma RecordedConcat(
      a: seq<Event>, b: seq<Event>, script: seq<Completion>, middle: seq<Completion>, rest: seq<Completion>)
    requires Recorded(Dones(a), script, middle) && Recorded(Dones(b), middle, rest)
    ensures Recorded(Dones(a + b), script, rest)
  {
    DonesConcat(a, b);
    hide Records;
    hide Dones;
    var x, y := Dones(a), Dones(b);
    assert forall k :: 0 <= k < |y| ==> middle[k] == script[|x| + k];
    forall k | 0 <= k < |x + y| ensures Records((x + y)[k], script[k]) {
      if k >= |x| {
        assert Records(y[k - |x|], middle[k - |x|]);
      }
    }
  }

  lemma {:induction false} StagesRecorded(
      stages: seq<Stage>, host: string, service: string, script: seq<Completion>, endpoint: Endpoint)
    ensures var run := RunStages(stages, host, service, script, endpoint);
            Recorded(Dones(run.events), script, run.rest)
    decreases |stages|
  {
    if stages == [] {
      DoneOne(Posted(SUCCESS, endpoint));
    } else if script == [] {
      DoneOne(StageStarted(stages[0], host, service));
    } else {
      var start, c := StageStarted(stages[0], host, service), script[0];
      var failed := Fails(stages[0], c);
      var done := StageDone(stages[0], !failed, if failed then Error(stages[0], c) else SUCCESS);
      DoneTwo(start, done);
      assert Recorded(Dones([start, done]), script, script[1..]);
      hide Dones;
      if failed {
        var post := Posted(done.ec, NoEndpoint);
        DoneOne(post);
        assert [start, done, post] == [start, done] + [post];
        RecordedConcat([start, done], [post], script, script[1..], script[1..]);
      } else {
        var first := if stages[0].Tcp? then c.endpoint else endpoint;
        var next := RunStages(stages[1..], host, service, script[1..], first);
        StagesRecorded(stages[1..], host, service, script[1..], first);
        RecordedConcat([start, done], next.events, script, script[1..], next.rest);
      }
    }
  }

  lemma RespondingRecorded(s: Status, script: seq<Completion>, ec: ErrorCode)
    ensures var t := Responding([], s, script, ec);
            Recorded(Dones(t.events), script, t.rest)
  {
    DoneOne(WriteStarted(s));
    if script == [] {
      assert Responding([], s, script, ec).events == [WriteStarted(s)];
    } else {
      DoneTwo(WriteStarted(s), WriteDone(s, script[0].ec));
      assert Responding([], s, script, ec).events == [WriteStarted(s), WriteDone(s, script[0].ec)];
    }
  }

  lemma ServingRecorded(isSsl: bool, r: Request, script: seq<Completion>, ec: ErrorCode)
    ensures var t := Serving(isSsl, r, script, ec);
            Recorded(Dones(t.events), script, t.rest)
  {
    match Refusal(r)
    case Some(s) => RespondingRecorded(s, script, ec);
    case None =>
      var a, run := Target.Parse(r.target), Connecting(isSsl, r, script);
      StagesRecorded(Stages(isSsl), a.host, a.port, script, NoEndpoint);
      hide RunStages;
      match run.posted {
        case None =>
        case Some(p) =>
          RespondingRecorded(Report(p.ec), run.rest, p.ec);
          RespondingAfter(run.events, Report(p.ec), run.rest, p.ec);
          var t := Responding([], Report(p.ec), run.rest, p.ec);
          RecordedConcat(run.events, t.events, script, run.rest, t.rest);
      }
  }

  lemma TurnRecorded(isSsl: bool, script: seq<Completion>, ec: ErrorCode)
    ensures var t := Turn(isSsl, script, ec);
            Recorded(Dones(t.events), script, t.rest)
  {
    hide Serving;
    hide Dones;
    if script == [] {
      DoneOne(ReadStarted);
    } else if script[0].ec != SUCCESS {
      DoneTwo(ReadStarted, ReadFailed(script[0].ec));
    } else {
      var r := script[0].request;
      DoneTwo(ReadStarted, RequestRead(r));
      ServingRecorded(isSsl, r, script[1..], SUCCESS);
      var t := Serving(isSsl, r, script[1..], SUCCESS);
      RecordedConcat([ReadStarted, RequestRead(r)], t.events, script, script[1..], t.rest);
    }
  }

  /** The trace records every completion that a run uses, in the order of the script and each as its own
      fields have it; what the run leaves of the script is what follows them. */
  lemma {:induction false} RunRecorded(isSsl: bool, script: seq<Completion>, ec: ErrorCode)
    ensures var run := Negotiate(isSsl, script, ec);
            Recorded(Dones(run.events), script, run.rest)
    decreases |script|
  {
    TurnConsumes(isSsl, script, ec);
    TurnRecorded(isSsl, script, ec);
    var t := Turn(isSsl, script, ec);
    hide Turn;
    if t.next == Again {
      RunRecorded(isSsl, t.rest, t.ec);
      var run := Negotiate(isSsl, t.rest, t.ec);
      RecordedConcat(t.events, run.events, script, t.rest, run.rest);
    }
  }

  // Which response answers which request.

  /** How many of the requests are CONNECT requests that ask for persistence. */
  function Tried(asked: seq<Request>): nat {
    if asked == [] then 0
    else (if asked[0].verb == Verb.Connect && asked[0].keepAlive then 1 else 0) + Tried(asked[1..])
  }

  /** The response to request `i`: 405 to any other method, whatever its persistence; the 400 to a CONNECT
      request without persistence; and else 200 or the other 400, as the connect operation for this
      request posts no error or one. */
  predicate Answered(asked: seq<Request>, posts: seq<Post>, i: nat, s: Status) {
    && i < |asked|
    && var r := asked[i];
    && (s == MethodNotAllowed <==> r.verb != Verb.Connect)
    && (s == NotPersistent <==> r.verb == Verb.Connect && !r.keepAlive)
    && (r.verb == Verb.Connect && r.keepAlive ==>
          var t := Tried(asked[..i]);
          t < |posts| && s == if posts[t].ec == 0 then Established else Unreachable)
  }

  lemma {:induction false} RepliesAnswer(asked: seq<Request>, posts: seq<Post>, i: nat)
    requires i < |Replies(asked, posts)|
    ensures Answered(asked, posts, i, Replies(asked, posts)[i])
  {
    var refused := Refusal(asked[0]).Some?;
    if i == 0 {
    } else {
      RepliesAnswer(asked[1..], if refused then posts else posts[1..], i - 1);
      assert asked[..i][0] == asked[0] && asked[..i][1..] == asked[1..][..i - 1];
    }
  }

  /** In every run the attempted responses answer the requests read, in order and one each, and each is
      the right one for its request; only a request whose connect operation is still going on waits for
      its response. A 200 or the 400 to a request without persistence is the last thing attempted and
      answers the last request. */
  lemma {:induction false} RespondsInOrder(isSsl: bool, script: seq<Completion>, ec: ErrorCode)
    ensures var run := Negotiate(isSsl, script, ec);
            var asked, attempts := Reads(run.events), Attempts(run.events);
            && (|attempts| == |asked| || (!run.returned && |attempts| + 1 == |asked|))
            && forall i :: 0 <= i < |attempts| ==>
              && Answered(asked, Posts(run.events), i, attempts[i])
              && (attempts[i] == NotPersistent || attempts[i] == Established ==> i + 1 == |attempts| == |asked|)
  {
    AttemptsAreReplies(isSsl, script, ec);
    var es := Negotiate(isSsl, script, ec).events;
    var asked, posts, attempts := Reads(es), Posts(es), Attempts(es);
    hide Negotiate;
    hide Answered;
    hide Replies;
    hide Reads;
    hide Posts;
    hide Attempts;
    forall i | 0 <= i < |attempts|
      ensures Answered(asked, posts, i, attempts[i])
      ensures attempts[i] == NotPersistent || attempts[i] == Established ==> i + 1 == |attempts| == |asked|
    {
      RepliesAnswer(asked, posts, i);
      assert attempts[i] == NotPersistent || attempts[i] == Established ==> Ends(attempts[i]);
    }
  }

  /** What the last event of a run says: it has returned exactly if that is a failed read or the end of
      writing a 200 or the 400 to a request without persistence, so no other response ends the loop; and
      it waits only where the environment has nothing more to say. */
  lemma {:induction false} ReturnsExactly(isSsl: bool, script: seq<Completion>, ec: ErrorCode)
    ensures var run := Negotiate(isSsl, script, ec);
            && run.events != []
            && var last := run.events[|run.events| - 1];
            && (run.returned <==>
                  || (last == ReadFailed(run.ec) && run.ec != 0)
                  || last == WriteDone(NotPersistent, run.ec)
                  || last == WriteDone(Established, run.ec))
            && (!run.returned ==> run.rest == [] && (last.ReadStarted? || last.StageStarted? || last.WriteStarted?))
    decreases |script|
  {
    TurnConsumes(isSsl, script, ec);
    TurnEndsProperly(isSsl, script, ec);
    TurnWaits(isSsl, script, ec);
    var t := Turn(isSsl, script, ec);
    hide Turn;
    if t.next == Again {
      ReturnsExactly(isSsl, t.rest, t.ec);
    }
  }

  lemma TurnWaits(isSsl: bool, script: seq<Completion>, ec: ErrorCode)
    ensures var t := Turn(isSsl, script, ec);
            t.next == Waiting ==> t.rest == []
  {
    if script != [] && script[0].ec == SUCCESS {
      var a, later := Target.Parse(script[0].request.target), script[1..];
      PostsExactly(isSsl, a.host, a.port, later);
      StagesWait(Stages(isSsl), a.host, a.port, later, NoEndpoint);
      hide RunStages;
    }
  }

  lemma {:induction false} StagesWait(
      stages: seq<Stage>, host: string, service: string, script: seq<Completion>, endpoint: Endpoint)
    ensures var run := RunStages(stages, host, service, script, endpoint);
            run.posted == None ==> run.rest == []
    decreases |stages|
  {
    if stages == [] || script == [] || Fails(stages[0], script[0]) {
    } else {
      StagesWait(stages[1..], host, service, script[1..], if stages[0].Tcp? then script[0].endpoint else endpoint);
    }
  }

  // Which completions lead to which response.

  /** Completion `m` is a request, and `s` is the response that it and the completions behind it, up to
      the first `n` of the script, call for. */
  predicate CallsFor(isSsl: bool, script: seq<Completion>, m: nat, n: nat, s: Status) {
    && m < |script| && script[m].ec == 0
    && var r, later := script[m].request, script[m + 1..];
    if r.verb != Verb.Connect then s == MethodNotAllowed && n == m + 1
    else if !r.keepAlive then s == NotPersistent && n == m + 1
    else
      || (s == Established && n == m + 1 + (if isSsl then 4 else 2) && AllSucceed(isSsl, later))
      || (n >= m + 2 && FirstFailure(isSsl, later, n - m - 2)
          && s == if NameCodeZero(isSsl, later, n - m - 2) then Established else Unreachable)
  }

  /** The failure is that of the server name, with a number that is zero as a 32-bit integer. */
  predicate NameCodeZero(isSsl: bool, script: seq<Completion>, k: nat) {
    isSsl && k == 0 && script != [] && script[0].ec % 0x1_0000_0000 == 0
  }

  lemma ConnectingCallsFor(isSsl: bool, r: Request, script: seq<Completion>, n: nat)
    requires script != [] && script[0].ec == 0 && script[0].request == r && Refusal(r) == None
    requires n < |script| && Connecting(isSsl, r, script[1..]).rest == script[1..][n..]
    requires Connecting(isSsl, r, script[1..]).posted.Some?
    ensures CallsFor(isSsl, script, 0, n + 1, Report(Connecting(isSsl, r, script[1..]).posted.value.ec))
  {
    hide RunStages;
    hide StagesStarted;
    hide Passed;
    hide Connected;
    hide Fails;
    hide Target.Parse;
    var a, later := Target.Parse(r.target), script[1..];
    PostsExactly(isSsl, a.host, a.port, later);
    PassedByFields(isSsl, later);
  }

  lemma ServingCallsFor(isSsl: bool, script: seq<Completion>, ec: ErrorCode, i: nat)
    requires script != [] && script[0].ec == 0
    requires var es := Serving(isSsl, script[0].request, script[1..], ec).events; i < |es| && es[i].WriteStarted?
    ensures var es := Serving(isSsl, script[0].request, script[1..], ec).events;
            CallsFor(isSsl, script, 0, 1 + |Dones(es[..i])|, es[i].status)
  {
    var r, later := script[0].request, script[1..];
    var es := Serving(isSsl, r, later, ec).events;
    match Refusal(r)
    case Some(s) =>
      RespondingAfter([], s, later, ec);
      assert i == 0 && es[..i] == [];
    case None =>
      var a, run := Target.Parse(r.target), Connecting(isSsl, r, later);
      OnlyStageEvents(Stages(isSsl), a.host, a.port, later, NoEndpoint);
      StagesRecorded(Stages(isSsl), a.host, a.port, later, NoEndpoint);
      hide RunStages;
      hide CallsFor;
      assert forall k :: 0 <= k < |run.events| ==> run.events[k] in run.events;
      match run.posted {
        case None =>
        case Some(p) =>
          RespondingAfter(run.events, Report(p.ec), run.rest, p.ec);
          assert i == |run.events| && es[..i] == run.events;
          ConnectingCallsFor(isSsl, r, script, |Dones(run.events)|);
      }
  }

  lemma TurnCallsFor(isSsl: bool, script: seq<Completion>, ec: ErrorCode, i: nat)
    requires var es := Turn(isSsl, script, ec).events; i < |es| && es[i].WriteStarted?
    ensures var es := Turn(isSsl, script, ec).events;
            && CallsFor(isSsl, script, 0, |Dones(es[..i])|, es[i].status)
            && Dones(es[..i]) != [] && Dones(es[..i])[0] == RequestRead(script[0].request)
  {
    hide CallsFor;
    hide Serving;
    hide Dones;
    assert script != [] && script[0].ec == SUCCESS;
    var r, es := script[0].request, Turn(isSsl, script, ec).events;
    var head, after := [ReadStarted, RequestRead(r)], Serving(isSsl, r, script[1..], SUCCESS).events;
    assert es == head + after && es[..i] == head + after[..i - 2];
    hide Turn;
    DoneTwo(head[0], head[1]);
    DonesConcat(head, after[..i - 2]);
    ServingCallsFor(isSsl, script, SUCCESS, i - 2);
  }

  lemma CallsForLater(isSsl: bool, script: seq<Completion>, d: nat, m: nat, n: nat, s: Status)
    requires d <= |script| && CallsFor(isSsl, script[d..], m, n, s)
    ensures CallsFor(isSsl, script, d + m, d + n, s)
    ensures d + m < |script| && script[d..][m] == script[d + m]
  {
    hide AllSucceed;
    hide FirstFailure;
    assert script[d..][m] == script[d + m] && script[d..][m + 1..] == script[d + m + 1..];
  }

  /** Every attempted response is what the completions call for: those that were used when it was
      started, from the reading of the last request on. */
  lemma {:induction false} ResponsesByScript(isSsl: bool, script: seq<Completion>, ec: ErrorCode, i: nat)
    returns (m: nat)
    requires i < |Negotiate(isSsl, script, ec).events| && Negotiate(isSsl, script, ec).events[i].WriteStarted?
    ensures var es := Negotiate(isSsl, script, ec).events;
            && CallsFor(isSsl, script, m, |Dones(es[..i])|, es[i].status)
            && m < |Dones(es[..i])| && Dones(es[..i])[m] == RequestRead(script[m].request)
    decreases |script|
  {
    hide Turn;
    hide Negotiate;
    hide Dones;
    hide CallsFor;
    var t := Turn(isSsl, script, ec);
    var later := FirstTurn(isSsl, script, ec);
    var es := Negotiate(isSsl, script, ec).events;
    if i < |t.events| {
      TurnCallsFor(isSsl, script, ec, i);
      assert es[..i] == t.events[..i];
      m := 0;
    } else {
      var k, d := i - |t.events|, |Dones(t.events)|;
      m := ResponsesByScript(isSsl, t.rest, t.ec, k);
      TurnRecorded(isSsl, script, ec);
      assert es[..i] == t.events + later[..k];
      DonesConcat(t.events, later[..k]);
      CallsForLater(isSsl, script, d, m, |Dones(later[..k])|, es[i].status);
      m := d + m;
    }
  }
}
