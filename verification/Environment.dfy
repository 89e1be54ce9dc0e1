/**
 What a session's coroutines see of the world: each time one waits, the environment picks how the
 operation completes. A run that outlives the environment's choices is still waiting, so quantifying
 over all scripts covers every finite part of every run.
 */
module Environment {
  import opened Common
  import opened HeaderFields

  datatype Verb = Connect | Other(name: string)

  datatype Request = Request(verb: Verb, keepAlive: bool, target: string)

  datatype Endpoint = NoEndpoint | Peer(id: nat)

  /** The outcome of one operation; each kind of operation looks at its own part. */
  datatype Completion = Completion(
    ec: ErrorCode, accepted: bool, request: Request, endpoint: Endpoint, fields: seq<Field>, isDone: bool)

  /** Success, with nothing else of note. */
  const PLAIN: Completion := Completion(SUCCESS, true, Request(Other(""), false, ""), NoEndpoint, [], false)

  /** The stages of connecting to a remote host. */
  datatype Stage = ServerName | Resolve | Tcp | Handshake

  /** The responses of the negotiation: 405, the 400 to a request without persistence, the 400 after a
      failed connect operation, and 200. */
  datatype Status = MethodNotAllowed | NotPersistent | Unreachable | Established

  datatype Event =
    | ReadStarted
    | ReadFailed(ec: ErrorCode)
    | RequestRead(request: Request)
    | StageStarted(stage: Stage, host: string, service: string)
    | StageDone(stage: Stage, ok: bool, ec: ErrorCode)
    | Posted(ec: ErrorCode, endpoint: Endpoint)
    | WriteStarted(status: Status)
    | WriteDone(status: Status, ec: ErrorCode)
    | TunnelEntered

  class Env {
    var script: seq<Completion>
    var trace: seq<Event>

    constructor (script: seq<Completion>)
      ensures this.script == script && trace == []
    {
      this.script, trace := script, [];
    }

    method Log(e: Event)
      modifies this
      ensures trace == old(trace) + [e] && script == old(script)
    {
      trace := trace + [e];
    }

    /** What completes next; nothing is returned while the environment is silent. */
    method Advance() returns (c: Option<Completion>)
      modifies this`script
      ensures old(script) == [] ==> c == None && script == []
      ensures old(script) != [] ==> c == Some(old(script)[0]) && script == old(script)[1..]
    {
      if script == [] {
        c := None;
      } else {
        c, script := Some(script[0]), script[1..];
      }
    }

    /** Starts an operation and waits for it. */
    method Await(start: Event) returns (c: Option<Completion>)
      modifies this
      ensures trace == old(trace) + [start]
      ensures old(script) == [] ==> c == None && script == []
      ensures old(script) != [] ==> c == Some(old(script)[0]) && script == old(script)[1..]
    {
      trace := trace + [start];
      c := Advance();
    }
  }
}
