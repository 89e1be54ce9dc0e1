/**
 The tunnel: request headers are read from the client, stripped of their hop-by-hop fields and written
 to the remote host.
 */
module Tunnel {
  import opened Common
  import opened Environment
  import opened OptionScanner
  import opened HeaderFields
  import opened Partition

  /** The two sessions of a tunnel: what completes next is the environment's choice, and the headers that
      arrived and the headers handed to the write operation are recorded. */
  class Relay {
    const env: Env
    var received: seq<seq<Field>>
    var forwarded: seq<seq<Field>>

    constructor (env: Env)
      ensures this.env == env && received == [] && forwarded == []
    {
      this.env, received, forwarded := env, [], [];
    }

    method AsyncReadHeader(parser: Parser) returns (c: Option<Completion>)
      modifies this, env`script, parser.message
      ensures forwarded == old(forwarded)
      ensures old(env.script) == [] ==> c == None && env.script == [] && received == old(received)
      ensures old(env.script) != [] ==> c == Some(old(env.script)[0]) && env.script == old(env.script)[1..]
      ensures c.Some? && c.value.ec == SUCCESS ==>
                received == old(received) + [c.value.fields] && parser.message.entries == c.value.fields
      ensures c.Some? && c.value.ec != SUCCESS ==> received == old(received)
    {
      c := env.Advance();
      if c.Some? {
        parser.message.entries := c.value.fields;
        if c.value.ec == SUCCESS {
          received := received + [c.value.fields];
        }
      }
    }

    /** The header written is the one the serializer refers to, as it is now. */
    method AsyncWriteHeader(serializer: Serializer) returns (c: Option<Completion>)
      modifies this, env`script
      ensures forwarded == old(forwarded) + [serializer.message.entries] && received == old(received)
      ensures old(env.script) == [] ==> c == None && env.script == []
      ensures old(env.script) != [] ==> c == Some(old(env.script)[0]) && env.script == old(env.script)[1..]
    {
      forwarded := forwarded + [serializer.message.entries];
      c := env.Advance();
    }
  }

  /** A request parser owns the header of its message. */
  class Parser {
    const message: Fields

    constructor ()
      ensures fresh(message)
    {
      message := new Fields();
    }
  }

  /** A request serializer refers to a header it does not own. */
  class Serializer {
    const message: Fields

    constructor (message: Fields)
      ensures this.message == message
    {
      this.message := message;
    }
  }

  /** What one turn of the loop receives and, if the loop goes on, what it leaves of the script. The loop
      ends when an operation fails, a full body buffer aside, or is still waiting. */
  function Forwarding(script: seq<Completion>): (r: (Option<seq<Field>>, Option<seq<Completion>>))
    ensures r.1.Some? ==> r.0.Some? && |r.1.value| < |script|
  {
    if script == [] || script[0].ec != SUCCESS then (None, None)
    else
      var header := Some(script[0].fields);
      if |script| == 1 || script[1].ec != SUCCESS then (header, None)
      else if script[0].isDone then (header, Some(script[2..]))
      else if |script| == 2 || (script[2].ec != SUCCESS && script[2].ec != NEED_BUFFER) then (header, None)
      else (header, Some(script[3..]))
  }

  /** The headers that a tunnel receives. */
  function HeadersRead(script: seq<Completion>): seq<seq<Field>> {
    match Forwarding(script)
    case (None, _) => []
    case (Some(header), None) => [header]
    case (Some(header), Some(rest)) => [header] + HeadersRead(rest)
  }

  /** A header without its hop-by-hop fields. */
  function EndToEnd(header: seq<Field>): seq<Field> {
    Filtered(header, HopByHop(header))
  }

  function AllEndToEnd(headers: seq<seq<Field>>): (r: seq<seq<Field>>)
    ensures |r| == |headers| && forall i :: 0 <= i < |headers| ==> r[i] == EndToEnd(headers[i])
  {
    if headers == [] then [] else [EndToEnd(headers[0])] + AllEndToEnd(headers[1..])
  }

  /** One turn of the loop; false once it ends. The body of a message is read but not passed on. */
  method ForwardOne(relay: Relay) returns (again: bool)
    modifies relay, relay.env`script
    ensures var (header, rest) := Forwarding(old(relay.env.script));
            && again == rest.Some?
            && (again ==> relay.env.script == rest.value)
            && relay.received == old(relay.received) + (match header case None => [] case Some(h) => [h])
            && relay.forwarded == old(relay.forwarded) + (match header case None => [] case Some(h) => [EndToEnd(h)])
  {
    hide Filtered;
    hide PartitionedOut;
    hide HopByHop;
    var fields := new Fields();
    var parser := new Parser();
    var serializer := new Serializer(parser.message);

    var c := relay.AsyncReadHeader(parser);
    if c.None? || c.value.ec != SUCCESS {
      return false;
    }
    var isDone := c.value.isDone;

    PartitionConnectionOptions(parser.message, fields);

    c := relay.AsyncWriteHeader(serializer);
    if c.None? || c.value.ec != SUCCESS {
      return false;
    }

    if !isDone {
      c := relay.env.Advance();
      if c.None? {
        return false;
      }
      var ec := c.value.ec;
      if ec == NEED_BUFFER {
        ec := SUCCESS;
      }
      if ec != SUCCESS {
        return false;
      }
    }
    return true;
  }

  lemma NoHeaders()
    ensures AllEndToEnd([]) == []
  {
  }

  /** After `received` and `forwarded`, one turn and what follows it make the whole. */
  lemma HeadersReadStep(script: seq<Completion>, received: seq<seq<Field>>, forwarded: seq<seq<Field>>)
    ensures var (header, rest) := Forwarding(script);
            var left := match rest case None => [] case Some(s) => HeadersRead(s);
            && (rest.Some? ==> |rest.value| < |script|)
            && received + HeadersRead(script) == (received + match header case None => [] case Some(h) => [h]) + left
            && forwarded + AllEndToEnd(HeadersRead(script))
            == (forwarded + match header case None => [] case Some(h) => [EndToEnd(h)]) + AllEndToEnd(left)
  {
    hide EndToEnd;
    hide Forwarding;
    var (header, rest) := Forwarding(script);
    var left := match rest case None => [] case Some(s) => HeadersRead(s);
    if header.Some? {
      assert HeadersRead(script) == [header.value] + left;
      assert HeadersRead(script)[1..] == left;
      assert AllEndToEnd(HeadersRead(script)) == [EndToEnd(header.value)] + AllEndToEnd(left);
      hide HeadersRead;
      hide AllEndToEnd;
      Assoc(received, [header.value], left);
      Assoc(forwarded, [EndToEnd(header.value)], AllEndToEnd(left));
    }
  }

  /** In any number of turns, every header handed to the write operation is the one just received
      without its hop-by-hop fields. */
  method Tunnel(relay: Relay)
    modifies relay, relay.env`script
    ensures relay.received == old(relay.received) + HeadersRead(old(relay.env.script))
    ensures relay.forwarded == old(relay.forwarded) + AllEndToEnd(HeadersRead(old(relay.env.script)))
  {
    hide *;
    ghost var all := HeadersRead(relay.env.script);
    ghost var left := all;
    NoHeaders();
    var again := true;
    while again
      invariant left == if again then HeadersRead(relay.env.script) else []
      invariant old(relay.received) + all == relay.received + left
      invariant old(relay.forwarded) + AllEndToEnd(all) == relay.forwarded + AllEndToEnd(left)
      decreases again, |relay.env.script|
    {
      HeadersReadStep(relay.env.script, relay.received, relay.forwarded);
      again := ForwardOne(relay);
      left := if again then HeadersRead(relay.env.script) else [];
    }
  }

  // Which headers a tunnel receives, message by message.

  /** The completions of one whole message: its header is read and written, and then its body, unless the
      message is complete without one, is read to its end or up to a full buffer. */
  predicate IsMessage(m: seq<Completion>) {
    && |m| >= 2 && m[0].ec == 0 && m[1].ec == 0
    && if m[0].isDone then |m| == 2 else |m| == 3 && (m[2].ec == 0 || m[2].ec == NEED_BUFFER)
  }

  /** No message is read to its end any more: an operation fails or is still waiting. */
  predicate Breaks(script: seq<Completion>) {
    || script == [] || script[0].ec != 0
    || |script| == 1 || script[1].ec != 0
    || (!script[0].isDone && (|script| == 2 || (script[2].ec != 0 && script[2].ec != NEED_BUFFER)))
  }

  function Messages(ms: seq<seq<Completion>>): seq<Completion> {
    if ms == [] then [] else ms[0] + Messages(ms[1..])
  }

  function Headers(ms: seq<seq<Completion>>): seq<seq<Field>>
    requires forall m :: m in ms ==> IsMessage(m)
  {
    if ms == [] then []
    else
      assert IsMessage(ms[0]);
      [ms[0][0].fields] + Headers(ms[1..])
  }

  lemma MessageForwards(m: seq<Completion>, later: seq<Completion>)
    requires IsMessage(m)
    ensures Forwarding(m + later) == (Some(m[0].fields), Some(later))
  {
    var script := m + later;
    assert script[0] == m[0] && script[1] == m[1] && (|m| == 3 ==> script[2] == m[2]);
    assert script[|m|..] == later;
  }

  /** After any number of whole messages the tunnel has received their headers and goes on. */
  lemma {:induction false} HeadersOfMessages(ms: seq<seq<Completion>>, rest: seq<Completion>)
    requires forall m :: m in ms ==> IsMessage(m)
    ensures HeadersRead(Messages(ms) + rest) == Headers(ms) + HeadersRead(rest)
  {
    if ms == [] {
      assert Messages(ms) + rest == rest;
    } else {
      var m, later := ms[0], Messages(ms[1..]) + rest;
      assert IsMessage(m);
      assert Messages(ms) + rest == m + later;
      MessageForwards(m, later);
      hide Forwarding;
      hide IsMessage;
      hide Messages;
      HeadersOfMessages(ms[1..], rest);
    }
  }

  /** The first completion that does not belong to a whole message ends it: without a header if that one
      was not read, and otherwise with this header as the last. */
  lemma HeadersWhereItBreaks(script: seq<Completion>)
    requires Breaks(script)
    ensures HeadersRead(script) == if script == [] || script[0].ec != 0 then [] else [script[0].fields]
  {
  }

  /** Every script is some whole messages and a part that breaks off. */
  lemma {:induction false} MessagesAndBreak(script: seq<Completion>)
    returns (ms: seq<seq<Completion>>, rest: seq<Completion>)
    ensures script == Messages(ms) + rest && Breaks(rest) && forall m :: m in ms ==> IsMessage(m)
    ensures HeadersRead(script) == Headers(ms) + if rest == [] || rest[0].ec != 0 then [] else [rest[0].fields]
    decreases |script|
  {
    if Breaks(script) {
      ms, rest := [], script;
      HeadersWhereItBreaks(script);
    } else {
      var n := if script[0].isDone then 2 else 3;
      var later;
      later, rest := MessagesAndBreak(script[n..]);
      ms := [script[..n]] + later;
      assert IsMessage(script[..n]) && forall m :: m in ms ==> m == script[..n] || m in later;
      hide IsMessage;
      hide Breaks;
      hide HeadersRead;
      hide Headers;
      assert script == script[..n] + script[n..] && ms[1..] == later;
      assert Messages(ms) == script[..n] + Messages(later);
      hide Messages;
      Assoc(script[..n], Messages(later), rest);
      HeadersOfMessages(ms, rest);
      HeadersWhereItBreaks(rest);
    }
  }

  /** A full body buffer does not end the tunnel: the next header is received too. */
  lemma FullBufferGoesOn(first: seq<Field>, second: seq<Field>)
    ensures HeadersRead([PLAIN.(fields := first), PLAIN, PLAIN.(ec := NEED_BUFFER), PLAIN.(fields := second), PLAIN])
         == [first, second]
  {
    var m, rest := [PLAIN.(fields := first), PLAIN, PLAIN.(ec := NEED_BUFFER)], [PLAIN.(fields := second), PLAIN];
    assert IsMessage(m) && Breaks(rest);
    assert m + rest == [m[0], m[1], m[2], rest[0], rest[1]];
    assert Messages([m]) == m + Messages([]) && Headers([m]) == [first] + Headers([]);
    HeadersOfMessages([m], rest);
    HeadersWhereItBreaks(rest);
  }

  // What the forwarded header is free of.

  /** Every option in the sense of the list grammar in section 7 of RFC 7230. */
  function ListedOptions(values: seq<string>): seq<string> {
    if values == [] then []
    else ListedOptions(values[..|values| - 1]) + NonEmpty(Elements(values[|values| - 1]))
  }

  predicate Gapless(values: seq<string>) {
    forall i :: 0 <= i < |values| ==> NoGap(Elements(values[i]))
  }

  lemma BothOrNeither(a: seq<string>, b: seq<string>, c: seq<string>, d: seq<string>)
    requires |a| <= |b| && |c| <= |d|
    ensures a + c == b + d <==> a == b && c == d
  {
    if a + c == b + d {
      assert |a| == |b| && (a + c)[..|a|] == a && (b + d)[..|b|] == b;
      assert (a + c)[|a|..] == c && (b + d)[|b|..] == d;
    }
  }

  lemma GaplessStep(values: seq<string>)
    requires values != []
    ensures Gapless(values) <==> Gapless(values[..|values| - 1]) && NoGap(Elements(values[|values| - 1]))
  {
    hide NoGap;
    hide Elements;
    var front := values[..|values| - 1];
    assert forall i :: 0 <= i < |front| ==> front[i] == values[i];
  }

  lemma {:induction false} ListedOptionsFoundExactly(values: seq<string>)
    ensures |OptionsIn(values)| <= |ListedOptions(values)|
    ensures OptionsIn(values) == ListedOptions(values) <==> Gapless(values)
  {
    if values == [] {
    } else {
      var front, v := values[..|values| - 1], values[|values| - 1];
      ListedOptionsFoundExactly(front);
      ScanFindsAllOptionsExactly(v);
      assert v == "" ==> Scan(v) == [];
      assert OptionsIn(values) == OptionsIn(front) + Scan(v);
      assert ListedOptions(values) == ListedOptions(front) + NonEmpty(Elements(v));
      hide Gapless;
      hide OptionsIn;
      hide ListedOptions;
      hide Scan;
      hide NoGap;
      hide NonEmpty;
      hide Elements;
      BothOrNeither(OptionsIn(front), ListedOptions(front), Scan(v), NonEmpty(Elements(v)));
      GaplessStep(values);
    }
  }

  /** A forwarded header keeps the values of every end-to-end name and has none of Connection and of the
      names that the scanner found. If no Connection value has a gap, these are all names that section
      6.1 of RFC 7230 wants removed. */
  lemma {:induction false} EndToEndValues(header: seq<Field>, key: string)
    ensures Values(EndToEnd(header), key)
         == if key == CONNECTION_KEY || key in Keys(Nominations(header)) then [] else Values(header, key)
    ensures Gapless(Values(header, CONNECTION_KEY)) && key in Keys(ListedOptions(Values(header, CONNECTION_KEY))) ==>
              Values(EndToEnd(header), key) == []
  {
    ValuesFiltered(header, HopByHop(header), key);
    ListedOptionsFoundExactly(Values(header, CONNECTION_KEY));
  }

  /** The options that the scanner does not find. */
  function MissedOptions(values: seq<string>): seq<string> {
    if values == [] then []
    else MissedOptions(values[..|values| - 1]) + BehindGap(Elements(values[|values| - 1]))
  }

  lemma {:induction false} KeysConcat(a: seq<string>, b: seq<string>)
    ensures Keys(a + b) == Keys(a) + Keys(b)
  {
    if b == [] {
      assert a + b == a;
    } else {
      assert (a + b)[..|a + b| - 1] == a + b[..|b| - 1];
      KeysConcat(a, b[..|b| - 1]);
    }
  }

  lemma {:induction false} ListedFoundOrMissed(values: seq<string>)
    ensures Keys(ListedOptions(values)) == Keys(OptionsIn(values)) + Keys(MissedOptions(values))
  {
    hide Scan;
    hide NonEmpty;
    hide Elements;
    hide BehindGap;
    if values == [] {
    } else {
      var front, v := values[..|values| - 1], values[|values| - 1];
      ListedFoundOrMissed(front);
      ScanMissesBehindGap(v);
      ScanNothing();
      assert OptionsIn(values) == OptionsIn(front) + Scan(v);
      hide Keys;
      KeysConcat(OptionsIn(front), Scan(v));
      KeysConcat(MissedOptions(front), BehindGap(Elements(v)));
      KeysConcat(ListedOptions(front), NonEmpty(Elements(v)));
      KeysConcat(Scan(v), BehindGap(Elements(v)));
    }
  }

  lemma ScanNothing()
    ensures Scan("") == []
  {
  }

  predicate NoneForwarded(header: seq<Field>, keys: set<string>) {
    forall key :: key in keys ==> Values(EndToEnd(header), key) == []
  }

  /** No option that section 6.1 of RFC 7230 wants removed is forwarded exactly if every option behind a
      gap names a field that is not there, or Connection, or one that some other option names. */
  lemma {:induction false} ListedOptionsRemovedExactly(header: seq<Field>)
    ensures NoneForwarded(header, Keys(ListedOptions(Values(header, CONNECTION_KEY)))) <==>
              forall key :: key in Keys(MissedOptions(Values(header, CONNECTION_KEY))) ==>
                key == CONNECTION_KEY || key in Keys(Nominations(header)) || Values(header, key) == []
  {
    var values := Values(header, CONNECTION_KEY);
    ListedFoundOrMissed(values);
    hide Keys;
    hide Values;
    hide EndToEnd;
    forall key ensures Values(EndToEnd(header), key)
                    == if key == CONNECTION_KEY || key in Keys(Nominations(header)) then [] else Values(header, key)
    {
      EndToEndValues(header, key);
    }
  }

  lemma NominationsOfGap(values: seq<string>)
    requires values == ["a,,b"]
    ensures Keys(OptionsIn(values)) == {Lower("a")}
    ensures Keys(ListedOptions(values)) == {Lower("a"), Lower("b")}
  {
    ScanMissesAfterGap();
    hide Scan;
    hide Elements;
    hide NonEmpty;
    hide Lower;
    var none, a, both := values[..0], ["a"], ["a", "b"];
    assert none == [] && a[..0] == [] && both[..1] == a;
    assert Keys(a) == {Lower("a")} && Keys(both) == {Lower("a"), Lower("b")};
    assert [] + a == a && [] + both == both;
  }

  lemma ForwardsMissed(f: Field, g: Field)
    requires Lower(f.name) == CONNECTION_KEY && f.value == "a,,b" && Lower(g.name) == Lower("b")
    requires Lower("a") != Lower("b") && CONNECTION_KEY != Lower("b")
    ensures Lower("b") in Keys(ListedOptions(Values([f, g], CONNECTION_KEY)))
    ensures Values(EndToEnd([f, g]), Lower("b")) == [g.value]
  {
    hide Lower;
    hide Keys;
    hide OptionsIn;
    hide ListedOptions;
    hide EndToEnd;
    ValuesOfTwo(f, g, CONNECTION_KEY);
    ValuesOfTwo(f, g, Lower("b"));
    EndToEndValues([f, g], Lower("b"));
    hide Values;
    assert Values([f, g], CONNECTION_KEY) == ["a,,b"] && Values([f, g], Lower("b")) == [g.value];
    NominationsOfGap(["a,,b"]);
  }

  /** A header whose listed field is forwarded all the same. */
  lemma ForwardsBehindGap()
    ensures var header := [Field(CONNECTION, "a,,b"), Field("b", "1")];
            && Lower("b") in Keys(ListedOptions(Values(header, CONNECTION_KEY)))
            && Values(EndToEnd(header), Lower("b")) == ["1"]
  {
    hide Keys;
    hide Values;
    hide EndToEnd;
    assert Lower("a") == "a" && Lower("b") == "b" && |CONNECTION_KEY| == 10;
    hide Lower;
    ForwardsMissed(Field(CONNECTION, "a,,b"), Field("b", "1"));
  }
}
