/**
 Connecting a client session to a remote host, stage by stage.
 */
module Connect {
  import opened Common
  import opened Environment

  /** The handler of a connect operation, posted with an error and an endpoint. */
  datatype Post = Post(ec: ErrorCode, endpoint: Endpoint)

  /** A run of the operation: what happened, what of the environment's script is left, and the post, if
      the operation has completed. */
  datatype ConnectRun = ConnectRun(events: seq<Event>, rest: seq<Completion>, posted: Option<Post>)

  function Stages(isSsl: bool): seq<Stage> {
    if isSsl then [ServerName, Resolve, Tcp, Handshake] else [Resolve, Tcp]
  }

  /** Conversion of the TLS library's error number to a 32-bit signed integer. */
  function ToInt(e: int): ErrorCode {
    var low := e % 0x1_0000_0000;
    if low >= 0x8000_0000 then low - 0x1_0000_0000 else low
  }

  /** Setting the server name fails by its result; every other stage by its error code. */
  predicate Fails(stage: Stage, c: Completion) {
    if stage.ServerName? then !c.accepted else c.ec != SUCCESS
  }

  function Error(stage: Stage, c: Completion): ErrorCode {
    if stage.ServerName? then ToInt(c.ec) else c.ec
  }

  /** Running stages in order until one fails. */
  function RunStages(
      stages: seq<Stage>, host: string, service: string, script: seq<Completion>, endpoint: Endpoint): ConnectRun
  {
    if stages == [] then ConnectRun([Posted(SUCCESS, endpoint)], script, Some(Post(SUCCESS, endpoint)))
    else
      var stage := stages[0];
      var start := StageStarted(stage, host, service);
      if script == [] then ConnectRun([start], [], None)
      else
        var c := script[0];
        if Fails(stage, c) then
          var ec := Error(stage, c);
          var events := [start, StageDone(stage, false, ec), Posted(ec, NoEndpoint)];
          ConnectRun(events, script[1..], Some(Post(ec, NoEndpoint)))
        else
          var next := RunStages(stages[1..], host, service, script[1..], if stage.Tcp? then c.endpoint else endpoint);
          ConnectRun([start, StageDone(stage, true, SUCCESS)] + next.events, next.rest, next.posted)
  }

  class ClientSession {
    const env: Env
    const isSsl: bool

    constructor (env: Env, isSsl: bool)
      ensures this.env == env && this.isSsl == isSsl
    {
      this.env, this.isSsl := env, isSsl;
    }

    /** The post that ends the operation. */
    method Complete(ec: ErrorCode, endpoint: Endpoint) returns (r: Option<Post>)
      modifies env
      ensures env.trace == old(env.trace) + [Posted(ec, endpoint)] && env.script == old(env.script)
      ensures r == Some(Post(ec, endpoint))
    {
      env.Log(Posted(ec, endpoint));
      r := Some(Post(ec, endpoint));
    }

    /** One stage that ends in an error code; afterwards the run is what it was, from the next stage on. */
    method RunStage(stage: Stage, host: string, service: string, ghost later: seq<Stage>, ghost endpoint: Endpoint)
      returns (c: Option<Completion>)
      modifies env
      ensures c.Some? ==> old(env.script) != [] && c.value == old(env.script)[0] && env.script == old(env.script)[1..]
      ensures var run := RunStages([stage] + later, host, service, old(env.script), endpoint);
              match c
              case None =>
                env.trace == old(env.trace) + run.events && env.script == run.rest && run.posted == None
              case Some(v) =>
                if Fails(stage, v) then
                  && env.trace + [Posted(Error(stage, v), NoEndpoint)] == old(env.trace) + run.events
                  && env.script == run.rest
                  && run.posted == Some(Post(Error(stage, v), NoEndpoint))
                else
                  var next := RunStages(later, host, service, env.script, if stage.Tcp? then v.endpoint else endpoint);
                  && old(env.trace) + run.events == env.trace + next.events
                  && run.rest == next.rest && run.posted == next.posted
    {
      assert ([stage] + later)[1..] == later;
      c := env.Await(StageStarted(stage, host, service));
      if c.Some? {
        var failed := Fails(stage, c.value);
        env.Log(StageDone(stage, !failed, if failed then Error(stage, c.value) else SUCCESS));
      }
    }

    method AsyncConnect(host: string, service: string) returns (r: Option<Post>)
      modifies env
      ensures var run := RunStages(Stages(isSsl), host, service, old(env.script), NoEndpoint);
              env.trace == old(env.trace) + run.events && env.script == run.rest && r == run.posted
    {
      hide RunStages;
      assert Stages(true) == [ServerName] + [Resolve, Tcp, Handshake];
      assert [Resolve] + [Tcp, Handshake] == [Resolve, Tcp, Handshake] && [Tcp] + [Handshake] == [Tcp, Handshake];
      assert Stages(false) == [Resolve] + [Tcp] && [Tcp] + [] == [Tcp] && [Handshake] + [] == [Handshake];
      var ec := SUCCESS;
      if isSsl {
        var c := RunStage(ServerName, host, service, [Resolve, Tcp, Handshake], NoEndpoint);
        if c.None? {
          return None;
        }
        if !c.value.accepted {
          ec := ToInt(c.value.ec);
          r := Complete(ec, NoEndpoint);
          return;
        }
      }

      var c := RunStage(Resolve, host, service, if isSsl then [Tcp, Handshake] else [Tcp], NoEndpoint);
      if c.None? {
        return None;
      }
      ec := c.value.ec;
      if ec != SUCCESS {
        r := Complete(ec, NoEndpoint);
        return;
      }

      c := RunStage(Tcp, host, service, if isSsl then [Handshake] else [], NoEndpoint);
      if c.None? {
        return None;
      }
      ec := c.value.ec;
      if ec != SUCCESS {
        r := Complete(ec, NoEndpoint);
        return;
      }
      var endpoint := c.value.endpoint;

      if isSsl {
        c := RunStage(Handshake, host, service, [], endpoint);
        if c.None? {
          return None;
        }
        ec := c.value.ec;
        if ec != SUCCESS {
          r := Complete(ec, NoEndpoint);
          return;
        }
      }

      NoStagesLeft(host, service, env.script, endpoint);
      r := Complete(SUCCESS, endpoint);
    }
  }

  lemma NoStagesLeft(host: string, service: string, script: seq<Completion>, endpoint: Endpoint)
    ensures RunStages([], host, service, script, endpoint)
         == ConnectRun([Posted(SUCCESS, endpoint)], script, Some(Post(SUCCESS, endpoint)))
  {
  }

  // What a run does, read off the environment's script.

  /** How many stages succeed before one fails or the script ends. */
  function Passed(stages: seq<Stage>, script: seq<Completion>): (k: nat)
    ensures k <= |stages| && k <= |script|
    ensures forall i :: 0 <= i < k ==> !Fails(stages[i], script[i])
    ensures k < |stages| && k < |script| ==> Fails(stages[k], script[k])
  {
    if stages == [] || script == [] || Fails(stages[0], script[0]) then 0
    else 1 + Passed(stages[1..], script[1..])
  }

  /** The endpoint that the last TCP stage among the first `k` connected to. */
  function Connected(stages: seq<Stage>, script: seq<Completion>, endpoint: Endpoint, k: nat): Endpoint
    requires k <= |stages| && k <= |script|
  {
    if k == 0 then endpoint
    else if stages[k - 1].Tcp? then script[k - 1].endpoint
    else Connected(stages, script, endpoint, k - 1)
  }

  function StagesStarted(es: seq<Event>): seq<Stage> {
    if es == [] then []
    else if es[0].StageStarted? then [es[0].stage] + StagesStarted(es[1..])
    else StagesStarted(es[1..])
  }

  function Posts(es: seq<Event>): seq<Post> {
    if es == [] then []
    else if es[0].Posted? then [Post(es[0].ec, es[0].endpoint)] + Posts(es[1..])
    else Posts(es[1..])
  }

  lemma {:induction false} ConnectedStep(stages: seq<Stage>, script: seq<Completion>, endpoint: Endpoint, k: nat)
    requires 0 < k <= |stages| && k <= |script|
    ensures var first := if stages[0].Tcp? then script[0].endpoint else endpoint;
            Connected(stages, script, endpoint, k) == Connected(stages[1..], script[1..], first, k - 1)
  {
    if k == 1 || stages[k - 1].Tcp? {
    } else {
      ConnectedStep(stages, script, endpoint, k - 1);
    }
  }

  lemma Prepend(start: Event, done: Event, es: seq<Event>)
    requires start.StageStarted? && done.StageDone?
    ensures StagesStarted([start, done] + es) == [start.stage] + StagesStarted(es)
    ensures Posts([start, done] + es) == Posts(es)
  {
    var all := [start, done] + es;
    assert all[1..][1..] == es;
  }

  /** What a run amounts to: stages start in order up to the first that fails, and no further. The
      handler is posted exactly once, as the last thing that happens, unless the environment is still
      silent. It carries the first failing stage's error with no endpoint, or no error with the
      connected endpoint. */
  predicate MeetsScript(stages: seq<Stage>, script: seq<Completion>, endpoint: Endpoint, run: ConnectRun) {
    var k := Passed(stages, script);
    && run.posted == (if k == |stages| then Some(Post(SUCCESS, Connected(stages, script, endpoint, k)))
                      else if k == |script| then None
                      else Some(Post(Error(stages[k], script[k]), NoEndpoint)))
    && run.rest == script[if k < |stages| && k < |script| then k + 1 else k..]
    && StagesStarted(run.events) == stages[..if k < |stages| then k + 1 else k]
    && PostedLast(run)
  }

  predicate PostedLast(run: ConnectRun) {
    && run.events != []
    && match run.posted
       case None => Posts(run.events) == []
       case Some(p) => Posts(run.events) == [p] && run.events[|run.events| - 1] == Posted(p.ec, p.endpoint)
  }

  lemma StopsAtOnce(stages: seq<Stage>, host: string, service: string, script: seq<Completion>, endpoint: Endpoint)
    requires stages == [] || script == [] || Fails(stages[0], script[0])
    ensures MeetsScript(stages, script, endpoint, RunStages(stages, host, service, script, endpoint))
  {
    var run := RunStages(stages, host, service, script, endpoint);
    if stages != [] {
      var start := StageStarted(stages[0], host, service);
      assert stages[..1] == [stages[0]] && StagesStarted([start]) == [stages[0]];
      if script != [] {
        var post := Posted(Error(stages[0], script[0]), NoEndpoint);
        assert run.events == [start, StageDone(stages[0], false, post.ec)] + [post];
        Prepend(start, StageDone(stages[0], false, post.ec), [post]);
      }
    }
  }

  lemma PostedLastPrepend(start: Event, done: Event, next: ConnectRun)
    requires start.StageStarted? && done.StageDone? && PostedLast(next)
    ensures PostedLast(ConnectRun([start, done] + next.events, next.rest, next.posted))
    ensures StagesStarted([start, done] + next.events) == [start.stage] + StagesStarted(next.events)
  {
    Prepend(start, done, next.events);
    hide Posts;
    hide StagesStarted;
  }

  lemma GoesOn(stages: seq<Stage>, start: Event, script: seq<Completion>, endpoint: Endpoint, next: ConnectRun)
    requires stages != [] && script != [] && !Fails(stages[0], script[0])
    requires start.StageStarted? && start.stage == stages[0]
    requires MeetsScript(stages[1..], script[1..], if stages[0].Tcp? then script[0].endpoint else endpoint, next)
    ensures MeetsScript(stages, script, endpoint,
              ConnectRun([start, StageDone(stages[0], true, SUCCESS)] + next.events, next.rest, next.posted))
  {
    hide Error;
    hide Fails;
    hide PostedLast;
    hide StagesStarted;
    var k := Passed(stages, script);
    assert k == 1 + Passed(stages[1..], script[1..]);
    hide Passed;
    ConnectedStep(stages, script, endpoint, k);
    hide Connected;
    PostedLastPrepend(start, StageDone(stages[0], true, SUCCESS), next);
    var n := if k < |stages| then k + 1 else k;
    assert [stages[0]] + stages[1..][..n - 1] == stages[..n];
    var used := if k < |stages| && k < |script| then k + 1 else k;
    assert script[1..][used - 1..] == script[used..];
  }

  lemma {:induction false} RunStagesOutcome(
      stages: seq<Stage>, host: string, service: string, script: seq<Completion>, endpoint: Endpoint)
    ensures MeetsScript(stages, script, endpoint, RunStages(stages, host, service, script, endpoint))
    decreases |stages|
  {
    hide MeetsScript;
    if stages == [] || script == [] || Fails(stages[0], script[0]) {
      StopsAtOnce(stages, host, service, script, endpoint);
    } else {
      var first := if stages[0].Tcp? then script[0].endpoint else endpoint;
      RunStagesOutcome(stages[1..], host, service, script[1..], first);
      GoesOn(stages, StageStarted(stages[0], host, service), script, endpoint,
             RunStages(stages[1..], host, service, script[1..], first));
    }
  }

  // What a run does, read off the fields of the completions.

  /** The converted number is the one 32-bit signed integer that differs by a multiple of 2^32. */
  lemma ToIntMeaning(e: int, r: int)
    ensures ToInt(e) == r <==> -0x8000_0000 <= r < 0x8000_0000 && (e - r) % 0x1_0000_0000 == 0
  {
  }

  /** Every completion that the operation needs is a success. */
  predicate AllSucceed(isSsl: bool, script: seq<Completion>) {
    if isSsl then
      |script| >= 4 && script[0].accepted && script[1].ec == 0 && script[2].ec == 0 && script[3].ec == 0
    else |script| >= 2 && script[0].ec == 0 && script[1].ec == 0
  }

  /** Completion `k` is the first that is not a success: a refused server name, or an error code. */
  predicate FirstFailure(isSsl: bool, script: seq<Completion>, k: nat) {
    && k < |script| && k < (if isSsl then 4 else 2)
    && if isSsl && k == 0 then !script[0].accepted
       else
         && script[k].ec != 0 && (isSsl ==> script[0].accepted)
         && forall i :: (if isSsl then 1 else 0) <= i < k ==> script[i].ec == 0
  }

  lemma PassedByFields(isSsl: bool, script: seq<Completion>)
    ensures var k, n := Passed(Stages(isSsl), script), |Stages(isSsl)|;
            && (AllSucceed(isSsl, script) <==> k == n)
            && (k < n && k < |script| ==> FirstFailure(isSsl, script, k))
            && (forall j: nat :: FirstFailure(isSsl, script, j) ==> j == k < n && k < |script|)
            && (k == n ==> Connected(Stages(isSsl), script, NoEndpoint, k) == script[if isSsl then 2 else 1].endpoint)
  {
    hide Passed;
    var stages := Stages(isSsl);
    var k := Passed(stages, script);
    assert forall i :: 0 <= i < k ==> !Fails(stages[i], script[i]);
    assert k < |stages| && k < |script| ==> Fails(stages[k], script[k]);
    if k == |stages| && isSsl {
      assert Connected(stages, script, NoEndpoint, 3) == script[2].endpoint;
    }
  }

  /** What the operation posts, for every environment: the endpoint without an error if all completions
      are successes; the error of the first one that is not, with no endpoint, after which no stage starts
      and nothing more of the script is used; and otherwise nothing yet. */
  lemma {:induction false} PostsExactly(isSsl: bool, host: string, service: string, script: seq<Completion>)
    ensures var run := RunStages(Stages(isSsl), host, service, script, NoEndpoint);
            var all := if isSsl then [ServerName, Resolve, Tcp, Handshake] else [Resolve, Tcp];
            && (AllSucceed(isSsl, script) ==>
                  && run.posted == Some(Post(0, script[if isSsl then 2 else 1].endpoint))
                  && run.rest == script[|all|..] && StagesStarted(run.events) == all)
            && (forall k: nat :: FirstFailure(isSsl, script, k) ==>
                  && run.posted == Some(Post(if isSsl && k == 0 then ToInt(script[0].ec) else script[k].ec, NoEndpoint))
                  && run.rest == script[k + 1..] && StagesStarted(run.events) == all[..k + 1])
            && (run.posted == None <==>
                  |script| < |all|
                  && (isSsl && script != [] ==> script[0].accepted)
                  && forall i :: (if isSsl then 1 else 0) <= i < |script| ==> script[i].ec == 0)
  {
    RunStagesOutcome(Stages(isSsl), host, service, script, NoEndpoint);
    PassedByFields(isSsl, script);
    assert Stages(isSsl)[..|Stages(isSsl)|] == Stages(isSsl);
    hide RunStages;
    hide PostedLast;
    hide StagesStarted;
    hide Connected;
    var n := Passed(Stages(isSsl), script);
    assert forall i :: 0 <= i < n ==> !Fails(Stages(isSsl)[i], script[i]);
    hide Passed;
  }

  /** A connect operation reports success with the endpoint of its TCP connection when every completion
      is a success. It also reports success, with no endpoint, in exactly one other case: setting the
      server name failed and the TLS library's error number is zero as a 32-bit integer. */
  lemma ReportsSuccessExactly(isSsl: bool, host: string, service: string, script: seq<Completion>, ep: Endpoint)
    ensures RunStages(Stages(isSsl), host, service, script, NoEndpoint).posted == Some(Post(0, ep)) <==>
              || (AllSucceed(isSsl, script) && ep == script[if isSsl then 2 else 1].endpoint)
              || (isSsl && script != [] && !script[0].accepted && script[0].ec % 0x1_0000_0000 == 0
                  && ep == NoEndpoint)
  {
    PassedByFields(isSsl, script);
    PostsExactly(isSsl, host, service, script);
    hide RunStages;
    hide StagesStarted;
    hide Passed;
    hide Connected;
    if isSsl && script != [] && !script[0].accepted {
      assert FirstFailure(isSsl, script, 0);
    }
  }

  /** With TLS, a server name that is refused while the library's error number is zero: the operation
      stops before it resolves anything and reports success with no endpoint. */
  lemma SuccessWithoutConnection(host: string, service: string, refused: Completion, later: seq<Completion>)
    requires !refused.accepted && ToInt(refused.ec) == SUCCESS
    ensures var run := RunStages(Stages(true), host, service, [refused] + later, NoEndpoint);
            && run.posted == Some(Post(SUCCESS, NoEndpoint))
            && StagesStarted(run.events) == [ServerName]
            && run.rest == later
  {
    var script := [refused] + later;
    RunStagesOutcome(Stages(true), host, service, script, NoEndpoint);
    assert Passed(Stages(true), script) == 0;
    hide RunStages;
  }

  /** One such completion. */
  lemma RefusedWithZero()
    ensures RunStages(Stages(true), "example.org", "443", [PLAIN.(accepted := false)], NoEndpoint).posted
         == Some(Post(SUCCESS, NoEndpoint))
  {
    var refused := PLAIN.(accepted := false);
    assert [refused] + [] == [refused];
    hide RunStages;
    SuccessWithoutConnection("example.org", "443", refused, []);
  }
}
