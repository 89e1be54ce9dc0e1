/**
 One proxied connection from its negotiation to the end of its tunnel.
 */
module ProxySession {
  import opened Common
  import opened Environment
  import opened Negotiation
  import opened NegotiationTrace
  import Tunnel

  /** Serves one client. The session to the remote host is made without a TLS context. Nothing is read
      or forwarded in the tunnel unless the negotiation ended with the successful write of a response
      that ends it; what is then forwarded has a connected remote host to go to exactly if the last
      request asked for persistence. The tunnel goes on with what the environment does after the
      negotiation. */
  method HandleRequest(env: Env, relay: Tunnel.Relay)
    requires relay.env == env
    modifies env, relay
    ensures var run := Negotiate(false, old(env.script), SUCCESS);
            var entered := EntersTunnel(run);
            var headers := if entered then Tunnel.HeadersRead(run.rest) else [];
            && env.trace == old(env.trace) + run.events + (if entered then [TunnelEntered] else [])
            && relay.received == old(relay.received) + headers
            && relay.forwarded == old(relay.forwarded) + Tunnel.AllEndToEnd(headers)
    ensures relay.forwarded != old(relay.forwarded) ==>
              var negotiation := Negotiate(false, old(env.script), SUCCESS).events;
              && Reads(negotiation) != [] && Reads(negotiation)[|Reads(negotiation)| - 1].verb == Verb.Connect
              && negotiation[|negotiation| - 1].WriteDone? && negotiation[|negotiation| - 1].ec == SUCCESS
              && (StageDone(Tcp, true, SUCCESS) in negotiation <==>
                  Reads(negotiation)[|Reads(negotiation)| - 1].keepAlive)
  {
    Tunnel.NoHeaders();
    var handler := new Handler(env, false);
    ghost var run := Negotiate(false, env.script, SUCCESS);
    TunnelExactly(false, env.script, SUCCESS);
    if EntersTunnel(run) {
      PlainConnectedExactly(env.script, SUCCESS);
    }
    hide Negotiate;
    hide Reads;
    var returned := handler.Init();
    if returned && handler.ec == SUCCESS {
      env.Log(TunnelEntered);
      Tunnel.Tunnel(relay);
    }
  }
}
