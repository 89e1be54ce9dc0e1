/**
 Synchronous writes of a flat stream, the layer below it, and the caller's loop that writes a whole
 buffer sequence.
 */
module FlatWrites {
  import opened Common
  import opened Buffers
  import opened Coalescing

  /** What the next layer answers to one write: how many bytes it would like to take, and an error. */
  datatype Reply = Reply(want: nat, ec: ErrorCode)

  /** Bytes taken of an offer. A successful write of something takes at least one byte. */
  function Taken(r: Reply, offered: nat): (n: nat)
    ensures n <= offered
  {
    if r.ec == SUCCESS then Min(Max(r.want, 1), offered) else Min(r.want, offered)
  }

  /** The environment's answer to write number `i`. It is listed for any finite number of writes; past
      the list the next layer takes all it is offered. */
  function Answer(env: seq<Reply>, i: nat): Reply {
    if i < |env| then env[i] else Reply(SIZE_MAX, SUCCESS)
  }

  /** The layer below. Its answers are chosen by the environment; it records what it was offered and
      the bytes that went out. */
  class NextLayer {
    const env: seq<Reply>
    var offers: seq<seq<Buffer>>
    var wire: Buffer

    constructor (env: seq<Reply>)
      ensures this.env == env && offers == [] && wire == []
    {
      this.env := env;
      offers, wire := [], [];
    }

    method WriteSome(buffers: seq<Buffer>) returns (n: nat, ec: ErrorCode)
      modifies this
      ensures offers == old(offers) + [buffers]
      ensures n == Taken(Answer(env, |old(offers)|), Total(buffers)) && ec == Answer(env, |old(offers)|).ec
      ensures n <= |Flatten(buffers)| && wire == old(wire) + Flatten(buffers)[..n]
    {
      FlattenLength(buffers);
      var r := Answer(env, |offers|);
      n, ec := Taken(r, Total(buffers)), r.ec;
      offers, wire := offers + [buffers], wire + Flatten(buffers)[..n];
    }
  }

  /** The first `n` bytes of a buffer sequence as a view on the caller's own buffers. */
  function Prefix(n: nat, bs: seq<Buffer>): seq<Buffer> {
    if bs == [] then []
    else if |bs[0]| >= n then [bs[0][..n]]
    else [bs[0]] + Prefix(n - |bs[0]|, bs[1..])
  }

  method CopyPiece(target: array<Octet>, at: nat, piece: Buffer)
    requires at + |piece| <= target.Length
    modifies target
    ensures target[..] == old(target[..])[..at] + piece + old(target[..])[at + |piece|..]
  {
    forall j | 0 <= j < |piece| {
      target[at + j] := piece[j];
    }
  }

  /** The target `now` after copying from the first `i` buffers into the target `was`. */
  ghost predicate Copied(now: Buffer, was: Buffer, source: seq<Buffer>, i: nat, room: nat, copied: nat) {
    && i <= |source| && room <= |was|
    && copied == Min(room, Total(source[..i])) <= |Flatten(source)|
    && now == Flatten(source)[..copied] + was[copied..]
  }

  lemma CopyNothing(was: Buffer, source: seq<Buffer>, room: nat)
    requires room <= |was|
    ensures Copied(was, was, source, 0, room, 0)
  {
    assert source[..0] == [] && Flatten(source)[..0] == [];
  }

  lemma CopyMore(now: Buffer, was: Buffer, source: seq<Buffer>, i: nat, room: nat, copied: nat)
    requires Copied(now, was, source, i, room, copied) && i < |source| && copied < room
    ensures var m := Min(|source[i]|, room - copied);
            && m <= |source[i]| && copied + m <= room <= |now|
            && Copied(now[..copied] + source[i][..m] + now[copied + m..], was, source, i + 1, room, copied + m)
  {
    var piece := source[i][..Min(|source[i]|, room - copied)];
    CopiedSoFar(source, i, |piece|);
    hide Flatten;
    hide Total;
    Overwrite(Flatten(source)[..copied], was, now, piece);
  }

  lemma CopyDone(now: Buffer, was: Buffer, source: seq<Buffer>, i: nat, room: nat, copied: nat)
    requires Copied(now, was, source, i, room, copied) && (i == |source| || copied >= room)
    ensures copied == Min(room, Total(source)) <= |Flatten(source)|
    ensures now == Flatten(source)[..copied] + was[copied..]
  {
    assert source[..|source|] == source;
    TotalMonotone(source, i, |source|);
  }

  lemma Overwrite(done: Buffer, was: Buffer, now: Buffer, piece: Buffer)
    requires |done| + |piece| <= |was| && now == done + was[|done|..]
    ensures now[..|done|] + piece + now[|done| + |piece|..] == (done + piece) + was[|done| + |piece|..]
  {
  }

  /** Copies the bytes of `source` to the front of `target`, at most `max` of them. */
  method BufferCopy(target: array<Octet>, source: seq<Buffer>, max: nat) returns (copied: nat)
    modifies target
    ensures copied == Min(Min(target.Length, max), Total(source)) <= |Flatten(source)|
    ensures target[..] == Flatten(source)[..copied] + old(target[..])[copied..]
  {
    hide Copied;
    hide Flatten;
    hide Total;
    var room := Min(target.Length, max);
    var i := 0;
    copied := 0;
    CopyNothing(target[..], source, room);
    while i < |source| && copied < room
      invariant 0 <= i <= |source|
      invariant Copied(target[..], old(target[..]), source, i, room, copied)
    {
      var m := Min(|source[i]|, room - copied);
      ghost var now := target[..];
      CopyMore(now, old(target[..]), source, i, room, copied);
      CopyPiece(target, copied, source[i][..m]);
      copied := copied + m;
      i := i + 1;
    }
    CopyDone(target[..], old(target[..]), source, i, room, copied);
  }

  /** The `m` bytes that follow the first `i` buffers in the stream are those of buffer `i`. */
  lemma CopiedSoFar(bs: seq<Buffer>, i: nat, m: nat)
    requires i < |bs| && m <= |bs[i]|
    ensures Total(bs[..i + 1]) == Total(bs[..i]) + |bs[i]| <= |Flatten(bs)|
    ensures Flatten(bs)[..Total(bs[..i]) + m] == Flatten(bs)[..Total(bs[..i])] + bs[i][..m]
  {
    assert Flatten(bs[i..]) == bs[i] + Flatten(bs[i..][1..]);
    hide Flatten;
    hide Total;
    TotalStep(bs, i);
    SplitAt(bs, i);
    FlattenLength(bs[..i]);
    FlattenLength(bs);
    TotalMonotone(bs, i + 1, |bs|);
    assert bs[..|bs|] == bs;
  }

  /** What one write offers to the next layer: the first bytes of the stream, in one piece. */
  function Offer(bs: seq<Buffer>, limit: nat): seq<Buffer> {
    FlattenLength(bs);
    SettingsBounds(bs, limit);
    if bs == [] then [] else [Flatten(bs)[..Settings(bs, limit).0]]
  }

  lemma OfferSize(bs: seq<Buffer>, limit: nat)
    ensures Total(Offer(bs, limit)) == |Flatten(Offer(bs, limit))| == Settings(bs, limit).0 <= Total(bs)
    ensures Flatten(Offer(bs, limit)) <= Flatten(bs)
  {
    FlattenLength(bs);
    SettingsBounds(bs, limit);
    if bs != [] {
      var piece := Flatten(bs)[..Settings(bs, limit).0];
      assert Flatten([piece]) == piece + Flatten([]);
      assert Total([piece]) == |piece| + Total([]);
    }
  }

  class FlatStream {
    const stream: NextLayer

    constructor (stream: NextLayer)
      ensures this.stream == stream
    {
      this.stream := stream;
    }

    /** The buffers handed to the next layer: a fresh flat copy, or a view on the first buffer. */
    method Gather(buffers: seq<Buffer>) returns (offer: seq<Buffer>)
      ensures offer == Offer(buffers, COALESCE_LIMIT)
    {
      var first, flatten := Coalesce(buffers, COALESCE_LIMIT);
      SettingsBounds(buffers, COALESCE_LIMIT);
      if flatten {
        var p := new Octet[first];
        var copied := BufferCopy(p, buffers, SIZE_MAX);
        assert copied == first && p[..] == p[..copied];
        offer := [p[..]];
      } else {
        if buffers != [] {
          assert Flatten(buffers)[..first] == buffers[0][..first];
        }
        offer := Prefix(first, buffers);
      }
    }

    /** The overload that reports an error by its code. */
    method WriteSome(buffers: seq<Buffer>) returns (n: nat, ec: ErrorCode)
      modifies stream
      ensures stream.offers == old(stream.offers) + [Offer(buffers, COALESCE_LIMIT)]
      ensures n == Taken(Answer(stream.env, |old(stream.offers)|), Settings(buffers, COALESCE_LIMIT).0)
      ensures ec == Answer(stream.env, |old(stream.offers)|).ec
      ensures n <= |Flatten(buffers)| && stream.wire == old(stream.wire) + Flatten(buffers)[..n]
    {
      OfferSize(buffers, COALESCE_LIMIT);
      var offer := Gather(buffers);
      n, ec := stream.WriteSome(offer);
    }

    /** The overload that throws. */
    method WriteSomeOrThrow(buffers: seq<Buffer>) returns (r: Result<nat>)
      modifies stream
      ensures stream.offers == old(stream.offers) + [Offer(buffers, COALESCE_LIMIT)]
      ensures var reply := Answer(stream.env, |old(stream.offers)|);
              var n := Taken(reply, Settings(buffers, COALESCE_LIMIT).0);
              && r == (if reply.ec == SUCCESS then Ok(n) else Throws(reply.ec))
              && n <= |Flatten(buffers)|
              && stream.wire == old(stream.wire) + Flatten(buffers)[..n]
    {
      OfferSize(buffers, COALESCE_LIMIT);
      var offer := Gather(buffers);
      var n, ec := stream.WriteSome(offer);
      r := if ec == SUCCESS then Ok(n) else Throws(ec);
    }

    /** One turn of the caller's loop: what it wrote and what then follows is what followed before. */
    method WriteAndConsume(rest: seq<Buffer>) returns (n: nat, ec: ErrorCode, next: seq<Buffer>)
      requires Trimmed(rest) && rest != [] && Bounded(rest, SIZE_MAX - COALESCE_LIMIT)
      modifies stream
      ensures |stream.offers| == |old(stream.offers)| + 1 && |stream.wire| == |old(stream.wire)| + n
      ensures Trimmed(next) && Bounded(next, SIZE_MAX - COALESCE_LIMIT)
      ensures ec == SUCCESS ==> Total(next) < Total(rest)
      ensures var run := Drain(rest, stream.env, |old(stream.offers)|, COALESCE_LIMIT);
              var left := if ec == SUCCESS then Drain(next, stream.env, |stream.offers|, COALESCE_LIMIT)
                          else Delivery([], [], ec);
              && old(stream.offers) + run.offers == stream.offers + left.offers
              && old(stream.wire) + run.bytes == stream.wire + left.bytes
              && run.ec == left.ec
    {
      DrainTurn(stream.offers, stream.wire, rest, stream.env, COALESCE_LIMIT);
      n, ec := WriteSome(rest);
      next := Consume(rest, n);
    }

    /** The loop that callers write around `WriteSome`: drop the accepted bytes and go on until nothing
        is left or an error is reported. */
    method WriteRest(trimmed: seq<Buffer>) returns (sent: nat, ec: ErrorCode)
      requires Trimmed(trimmed) && Bounded(trimmed, SIZE_MAX - COALESCE_LIMIT)
      modifies stream
      ensures var run := Drain(trimmed, stream.env, |old(stream.offers)|, COALESCE_LIMIT);
              && stream.offers == old(stream.offers) + run.offers
              && stream.wire == old(stream.wire) + run.bytes
              && sent == |run.bytes|
              && ec == run.ec
    {
      hide Flatten;
      hide Settings;
      hide Drain;
      hide Consume;
      sent, ec := 0, SUCCESS;
      var rest := trimmed;
      ghost var run := Drain(rest, stream.env, |stream.offers|, COALESCE_LIMIT);
      ghost var left := run;
      while rest != [] && ec == SUCCESS
        invariant Trimmed(rest) && Bounded(rest, SIZE_MAX - COALESCE_LIMIT)
        invariant |stream.wire| == |old(stream.wire)| + sent
        invariant left == if ec == SUCCESS then Drain(rest, stream.env, |stream.offers|, COALESCE_LIMIT)
                          else Delivery([], [], ec)
        invariant old(stream.offers) + run.offers == stream.offers + left.offers
        invariant old(stream.wire) + run.bytes == stream.wire + left.bytes
        invariant run.ec == left.ec
        decreases ec == SUCCESS, Total(rest)
      {
        var n;
        n, ec, rest := WriteAndConsume(rest);
        sent := sent + n;
        left := if ec == SUCCESS then Drain(rest, stream.env, |stream.offers|, COALESCE_LIMIT)
                else Delivery([], [], ec);
      }
      DrainNothing(stream.env, |stream.offers|, COALESCE_LIMIT);
    }

    /** Writing a whole buffer sequence. */
    method WriteAll(buffers: seq<Buffer>) returns (sent: nat, ec: ErrorCode)
      requires Bounded(buffers, SIZE_MAX - COALESCE_LIMIT)
      modifies stream
      ensures Bounded(Trim(buffers), SIZE_MAX - COALESCE_LIMIT)
      ensures stream.offers == old(stream.offers)
            + Drain(Trim(buffers), stream.env, |old(stream.offers)|, COALESCE_LIMIT).offers
      ensures sent <= |Flatten(buffers)| && stream.wire == old(stream.wire) + Flatten(buffers)[..sent]
      ensures ec == SUCCESS ==> sent == |Flatten(buffers)| && stream.wire == old(stream.wire) + Flatten(buffers)
      ensures ec == Drain(Trim(buffers), stream.env, |old(stream.offers)|, COALESCE_LIMIT).ec
    {
      TrimKeepsStream(buffers);
      DrainDelivers(Trim(buffers), stream.env, |stream.offers|, COALESCE_LIMIT);
      hide Flatten;
      hide Drain;
      hide Trim;
      sent, ec := WriteRest(Trim(buffers));
    }
  }

  /** A whole run of the caller's loop: the offers made, the bytes taken, the error that ended it. */
  datatype Delivery = Delivery(offers: seq<seq<Buffer>>, bytes: Buffer, ec: ErrorCode)

  /** One write from a trimmed rest: its bytes are the next bytes of the stream, what is left is the
      stream without them, and without an error there is progress. */
  lemma OneWrite(rest: seq<Buffer>, reply: Reply, limit: nat)
    requires Trimmed(rest) && rest != []
    requires limit <= SIZE_MAX && Bounded(rest, SIZE_MAX - limit)
    ensures var offer := Offer(rest, limit);
            var n := Taken(reply, Total(offer));
            && |offer| == 1 && offer[0] != []
            && Total(offer) == Settings(rest, limit).0
            && n <= |Flatten(offer)| && n <= |Flatten(rest)| == Total(rest)
            && Flatten(offer)[..n] == Flatten(rest)[..n]
            && (reply.ec == SUCCESS ==> n > 0)
            && Flatten(Consume(rest, n)) == Flatten(rest)[n..]
            && Total(Consume(rest, n)) == Total(rest) - n
            && Bounded(Consume(rest, n), SIZE_MAX - limit)
  {
    StallsExactly(rest, limit);
    OfferSize(rest, limit);
    var n := Taken(reply, Total(Offer(rest, limit)));
    ConsumeKeepsStream(rest, n);
    ConsumeKeepsBound(rest, n, SIZE_MAX - limit);
  }

  /** If nothing is offered, then whatever the next layer answers nothing is taken and the rest stays as
      it is: the loop would go round for ever. */
  lemma StaysStalled(rest: seq<Buffer>, reply: Reply, limit: nat)
    requires Trimmed(rest) && rest != [] && Settings(rest, limit).0 == 0
    ensures Total(Offer(rest, limit)) == 0
    ensures Taken(reply, Total(Offer(rest, limit))) == 0 && Consume(rest, 0) == rest
  {
    OfferSize(rest, limit);
  }

  /** The loop stalls on one byte followed by a buffer of the largest 64-bit size. */
  lemma StallsForEver(reply: Reply, limit: nat)
    requires 1 < limit <= SIZE_MAX
    ensures var rest := [Zeros(1), Zeros(SIZE_MAX)];
            Taken(reply, Total(Offer(rest, limit))) == 0 && Consume(rest, 0) == rest
  {
    WrapInput(limit);
    StaysStalled([Zeros(1), Zeros(SIZE_MAX)], reply, limit);
  }

  /** The loop as a function of what is left, the environment and the number of writes done so far. */
  function Drain(rest: seq<Buffer>, env: seq<Reply>, i: nat, limit: nat): Delivery
    requires Trimmed(rest) && limit <= SIZE_MAX && Bounded(rest, SIZE_MAX - limit)
    decreases Total(rest)
  {
    if rest == [] then Delivery([], [], SUCCESS)
    else
      OneWrite(rest, Answer(env, i), limit);
      var offer := Offer(rest, limit);
      var n := Taken(Answer(env, i), Total(offer));
      var bytes := Flatten(offer)[..n];
      if Answer(env, i).ec != SUCCESS then Delivery([offer], bytes, Answer(env, i).ec)
      else
        var run := Drain(Consume(rest, n), env, i + 1, limit);
        Delivery([offer] + run.offers, bytes + run.bytes, run.ec)
  }

  lemma DrainNothing(env: seq<Reply>, i: nat, limit: nat)
    requires limit <= SIZE_MAX
    ensures Trimmed([]) && Bounded([], SIZE_MAX - limit)
    ensures Drain([], env, i, limit) == Delivery([], [], SUCCESS)
  {
  }

  /** One turn of the loop, after `offers` and `wire`, leaves the outcome of the whole run as it was. */
  lemma DrainTurn(offers: seq<seq<Buffer>>, wire: Buffer, rest: seq<Buffer>, env: seq<Reply>, limit: nat)
    requires Trimmed(rest) && rest != []
    requires limit <= SIZE_MAX && Bounded(rest, SIZE_MAX - limit)
    ensures var reply := Answer(env, |offers|);
            var n := Taken(reply, Settings(rest, limit).0);
            && n <= |Flatten(rest)| == Total(rest)
            && (reply.ec == SUCCESS ==> Total(Consume(rest, n)) < Total(rest))
            && Bounded(Consume(rest, n), SIZE_MAX - limit)
            && var run := Drain(rest, env, |offers|, limit);
            var left := if reply.ec == SUCCESS then Drain(Consume(rest, n), env, |offers| + 1, limit)
                        else Delivery([], [], reply.ec);
            && offers + run.offers == (offers + [Offer(rest, limit)]) + left.offers
            && wire + run.bytes == (wire + Flatten(rest)[..n]) + left.bytes
            && run.ec == left.ec
  {
    hide Flatten;
    hide Total;
    hide Consume;
    hide Settings;
    hide Taken;
    var i := |offers|;
    OneWrite(rest, Answer(env, i), limit);
    var n := Taken(Answer(env, i), Settings(rest, limit).0);
    var left := if Answer(env, i).ec == SUCCESS then Drain(Consume(rest, n), env, i + 1, limit)
                else Delivery([], [], Answer(env, i).ec);
    assert Drain(rest, env, i, limit)
        == Delivery([Offer(rest, limit)] + left.offers, Flatten(rest)[..n] + left.bytes, left.ec);
    Assoc(offers, [Offer(rest, limit)], left.offers);
    Assoc(wire, Flatten(rest)[..n], left.bytes);
  }

  /** However the next layer cuts the writes up, the bytes that go out are a prefix of the caller's
      stream, all of it when no error is reported. Every offer is one non-empty contiguous buffer and
      every write but a failing last one makes progress, so there are at most as many as bytes. */
  lemma {:induction false} DrainDelivers(rest: seq<Buffer>, env: seq<Reply>, i: nat, limit: nat)
    requires Trimmed(rest) && limit <= SIZE_MAX && Bounded(rest, SIZE_MAX - limit)
    ensures var run := Drain(rest, env, i, limit);
            && run.bytes <= Flatten(rest)
            && (run.ec == SUCCESS ==> run.bytes == Flatten(rest))
            && |run.offers| <= Total(rest)
            && (forall o :: o in run.offers ==> |o| == 1 && o[0] != [])
    decreases Total(rest)
  {
    if rest == [] {
    } else {
      OneWrite(rest, Answer(env, i), limit);
      var n := Taken(Answer(env, i), Total(Offer(rest, limit)));
      if Answer(env, i).ec == SUCCESS {
        DrainDelivers(Consume(rest, n), env, i + 1, limit);
        PrefixJoin(Flatten(rest), n, Drain(Consume(rest, n), env, i + 1, limit).bytes);
      }
    }
  }

  /** The loop goes on as long as the answers carry no error and ends with the first that does, which it
      reports. */
  lemma {:induction false} DrainStopsAtError(rest: seq<Buffer>, env: seq<Reply>, i: nat, limit: nat)
    requires Trimmed(rest) && limit <= SIZE_MAX && Bounded(rest, SIZE_MAX - limit)
    ensures var run := Drain(rest, env, i, limit);
            && (forall k :: i <= k < i + |run.offers| - 1 ==> Answer(env, k).ec == 0)
            && run.ec == (if rest == [] then 0 else Answer(env, i + |run.offers| - 1).ec)
            && (rest == [] <==> run.offers == [])
    decreases Total(rest)
  {
    hide Consume;
    hide Flatten;
    hide Settings;
    hide Answer;
    if rest == [] {
    } else {
      OneWrite(rest, Answer(env, i), limit);
      var next := Consume(rest, Taken(Answer(env, i), Total(Offer(rest, limit))));
      if Answer(env, i).ec == SUCCESS {
        DrainStopsAtError(next, env, i + 1, limit);
      }
    }
  }

  lemma PrefixJoin(stream: Buffer, n: nat, tail: Buffer)
    requires n <= |stream| && tail <= stream[n..]
    ensures stream[..n] + tail <= stream
    ensures tail == stream[n..] ==> stream[..n] + tail == stream
  {
    assert stream == stream[..n] + stream[n..];
  }

  /** Two complete runs over the same buffers put the same bytes on the wire, whatever the limits and
      the answers were: in particular flattening sends what writing buffer by buffer sends. */
  lemma FlatteningRefinesPlainWrites(
      bs: seq<Buffer>, env: seq<Reply>, limit: nat, plainEnv: seq<Reply>, plainLimit: nat)
    requires limit <= SIZE_MAX && Bounded(Trim(bs), SIZE_MAX - limit)
    requires plainLimit <= SIZE_MAX && Bounded(Trim(bs), SIZE_MAX - plainLimit)
    requires Drain(Trim(bs), env, 0, limit).ec == SUCCESS
    requires Drain(Trim(bs), plainEnv, 0, plainLimit).ec == SUCCESS
    ensures Drain(Trim(bs), env, 0, limit).bytes == Drain(Trim(bs), plainEnv, 0, plainLimit).bytes == Flatten(bs)
  {
    DrainDelivers(Trim(bs), env, 0, limit);
    DrainDelivers(Trim(bs), plainEnv, 0, plainLimit);
    TrimKeepsStream(bs);
  }
}
