/**
 The CONNECT negotiation of the forward proxy: requests are read and answered until one of them opens
 the tunnel or ends the session.
 */
module Negotiation {
  import opened Common
  import opened Environment
  import opened Connect
  import Target

  /** How a turn of the loop ends. */
  datatype Next = Again | Return | Waiting

  datatype TurnRun = TurnRun(events: seq<Event>, rest: seq<Completion>, ec: ErrorCode, next: Next)

  /** The status that refuses a request outright. */
  function Refusal(r: Request): Option<Status> {
    if r.verb != Verb.Connect then Some(MethodNotAllowed)
    else if !r.keepAlive then Some(NotPersistent)
    else None
  }

  /** The status that reports the outcome of a connect operation. */
  function Report(ec: ErrorCode): Status {
    if ec == SUCCESS then Established else Unreachable
  }

  /** After these responses the loop ends. */
  predicate Ends(s: Status) {
    s.NotPersistent? || s.Established?
  }

  /** Writing a response, after `before`. Its outcome becomes the shared error code; it does not decide
      whether the loop goes on. */
  function Responding(before: seq<Event>, s: Status, script: seq<Completion>, ec: ErrorCode): TurnRun {
    if script == [] then TurnRun(before + [WriteStarted(s)], [], ec, Waiting)
    else
      var c := script[0];
      TurnRun(before + [WriteStarted(s), WriteDone(s, c.ec)], script[1..], c.ec, if Ends(s) then Return else Again)
  }

  /** The connect operation for a request's target. */
  function Connecting(isSsl: bool, r: Request, script: seq<Completion>): ConnectRun {
    var a := Target.Parse(r.target);
    RunStages(Stages(isSsl), a.host, a.port, script, NoEndpoint)
  }

  /** What follows once a request has been read. */
  function Serving(isSsl: bool, r: Request, script: seq<Completion>, ec: ErrorCode): TurnRun {
    match Refusal(r)
    case Some(s) => Responding([], s, script, ec)
    case None =>
      var run := Connecting(isSsl, r, script);
      match run.posted
      case None => TurnRun(run.events, run.rest, ec, Waiting)
      case Some(p) => Responding(run.events, Report(p.ec), run.rest, p.ec)
  }

  function Turn(isSsl: bool, script: seq<Completion>, ec: ErrorCode): TurnRun {
    if script == [] then TurnRun([ReadStarted], [], ec, Waiting)
    else if script[0].ec != SUCCESS then
      TurnRun([ReadStarted, ReadFailed(script[0].ec)], script[1..], script[0].ec, Return)
    else
      var run := Serving(isSsl, script[0].request, script[1..], SUCCESS);
      TurnRun([ReadStarted, RequestRead(script[0].request)] + run.events, run.rest, run.ec, run.next)
  }

  lemma ConnectingConsumes(isSsl: bool, r: Request, script: seq<Completion>)
    ensures |Connecting(isSsl, r, script).rest| <= |script|
  {
    var a := Target.Parse(r.target);
    RunStagesOutcome(Stages(isSsl), a.host, a.port, script, NoEndpoint);
    hide RunStages;
    hide PostedLast;
    hide Target.Parse;
  }

  lemma TurnConsumes(isSsl: bool, script: seq<Completion>, ec: ErrorCode)
    ensures Turn(isSsl, script, ec).next == Again ==> |Turn(isSsl, script, ec).rest| < |script|
  {
    if script != [] {
      ConnectingConsumes(isSsl, script[0].request, script[1..]);
      hide Connecting;
    }
  }

  /** A whole run: the trace, what is left of the script, the shared error code and whether it returned. */
  datatype Negotiated = Negotiated(events: seq<Event>, rest: seq<Completion>, ec: ErrorCode, returned: bool)

  function Negotiate(isSsl: bool, script: seq<Completion>, ec: ErrorCode): Negotiated
    decreases |script|
  {
    TurnConsumes(isSsl, script, ec);
    var t := Turn(isSsl, script, ec);
    match t.next
    case Waiting => Negotiated(t.events, t.rest, t.ec, false)
    case Return => Negotiated(t.events, t.rest, t.ec, true)
    case Again =>
      var run := Negotiate(isSsl, t.rest, t.ec);
      Negotiated(t.events + run.events, run.rest, run.ec, run.returned)
  }

  class Handler {
    const env: Env
    const client: ClientSession
    /** The error code that every completion overwrites. */
    var ec: ErrorCode

    constructor (env: Env, isSsl: bool)
      ensures this.env == env && fresh(client) && client.env == env && client.isSsl == isSsl && ec == SUCCESS
    {
      this.env := env;
      this.client := new ClientSession(env, isSsl);
      ec := SUCCESS;
    }

    /** Writes a response; false while the write has not completed. */
    method Respond(s: Status) returns (done: bool)
      modifies this, env
      ensures done <==> old(env.script) != []
      ensures done ==>
                && env.trace == old(env.trace) + [WriteStarted(s), WriteDone(s, old(env.script)[0].ec)]
                && env.script == old(env.script)[1..] && ec == old(env.script)[0].ec
      ensures !done ==> env.trace == old(env.trace) + [WriteStarted(s)] && env.script == [] && ec == old(ec)
    {
      var c := env.Await(WriteStarted(s));
      if c.None? {
        return false;
      }
      ec := c.value.ec;
      env.Log(WriteDone(s, ec));
      done := true;
    }

    /** What the loop does with a request: `Again` where it continues, `Return` where it breaks, and
        `Waiting` where it is still waiting. */
    method Serve(request: Request) returns (next: Next)
      requires client.env == env
      modifies this, env
      ensures var run := Serving(client.isSsl, request, old(env.script), old(ec));
              && env.trace == old(env.trace) + run.events
              && env.script == run.rest && ec == run.ec && next == run.next
    {
      hide RunStages;
      hide Target.Parse;
      if request.verb != Verb.Connect {
        var done := Respond(MethodNotAllowed);
        return if done then Again else Waiting;
      }

      if !request.keepAlive {
        var done := Respond(NotPersistent);
        return if done then Return else Waiting;
      }

      var authority := Target.Parse(request.target);
      var post := client.AsyncConnect(authority.host, authority.port);
      if post.None? {
        return Waiting;
      }
      ec := post.value.ec;

      if ec != SUCCESS {
        var done := Respond(Unreachable);
        return if done then Again else Waiting;
      }

      var done := Respond(Established);
      return if done then Return else Waiting;
    }

    /** One turn of the loop. */
    method Iterate() returns (next: Next)
      requires client.env == env
      modifies this, env
      ensures var run := Turn(client.isSsl, old(env.script), old(ec));
              && env.trace == old(env.trace) + run.events
              && env.script == run.rest && ec == run.ec && next == run.next
    {
      hide Serving;
      var read := env.Await(ReadStarted);
      if read.None? {
        return Waiting;
      }
      ec := read.value.ec;
      if ec != SUCCESS {
        env.Log(ReadFailed(ec));
        return Return;
      }
      var request := read.value.request;
      env.Log(RequestRead(request));
      next := Serve(request);
    }

    /** The negotiation loop; false while it has not returned. */
    method Init() returns (returned: bool)
      requires client.env == env
      modifies this, env
      ensures var run := Negotiate(client.isSsl, old(env.script), old(ec));
              && env.trace == old(env.trace) + run.events
              && env.script == run.rest && ec == run.ec && returned == run.returned
    {
      hide Turn;
      ghost var run := Negotiate(client.isSsl, env.script, ec);
      while true
        invariant var left := Negotiate(client.isSsl, env.script, ec);
                  && old(env.trace) + run.events == env.trace + left.events
                  && run.rest == left.rest && run.ec == left.ec && run.returned == left.returned
        decreases |env.script|
      {
        TurnConsumes(client.isSsl, env.script, ec);
        ghost var before := env.trace;
        ghost var turn := Turn(client.isSsl, env.script, ec);
        var next := Iterate();
        Assoc(before, turn.events, Negotiate(client.isSsl, env.script, ec).events);
        if next.Waiting? {
          return false;
        }
        if next.Return? {
          return true;
        }
      }
    }
  }
}
