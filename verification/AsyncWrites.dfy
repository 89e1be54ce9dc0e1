/**
 Asynchronous writes of a flat stream: any number of composed operations in flight at once, each with
 its own heap buffer, completed by the next layer in any order.
 */
module AsyncWrites {
  import opened Common
  import opened Buffers
  import opened Coalescing
  import opened FlatWrites
  import opened WriteLog

  /** The allocator associated with the handlers. Only a live block may be given back, and only with
      the size it was allocated with. */
  class Allocator {
    var live: set<array<Octet>>
    var liveBytes: nat

    constructor ()
      ensures live == {} && liveBytes == 0
    {
      live, liveBytes := {}, 0;
    }

    method Allocate(size: nat) returns (p: array<Octet>)
      modifies this
      ensures fresh(p) && p.Length == size
      ensures live == old(live) + {p} && liveBytes == old(liveBytes) + size
    {
      p := new Octet[size];
      live, liveBytes := live + {p}, liveBytes + size;
    }

    method Deallocate(p: array<Octet>, size: nat)
      requires p in live && size == p.Length && size <= liveBytes
      modifies this
      ensures live == old(live) - {p} && liveBytes == old(liveBytes) - size
    {
      live, liveBytes := live - {p}, liveBytes - size;
    }
  }

  /** An operation moved into the next layer, where it waits for its completion. */
  datatype Parked = Parked(b: seq<Buffer>, p: array?<Octet>, size: nat)

  /** Bytes held by the waiting operations below `n` that flattened their buffers. */
  function Held(pending: map<nat, Parked>, n: nat): nat {
    if n == 0 then 0
    else Held(pending, n - 1) + if n - 1 in pending && pending[n - 1].p != null then pending[n - 1].size else 0
  }

  lemma {:induction false} HeldSame(a: map<nat, Parked>, b: map<nat, Parked>, n: nat)
    requires forall op: nat :: op < n ==> Lookup(a, op) == Lookup(b, op)
    ensures Held(a, n) == Held(b, n)
  {
    if n == 0 {
    } else {
      HeldSame(a, b, n - 1);
      assert Lookup(a, n - 1) == Lookup(b, n - 1);
    }
  }

  lemma {:induction false} HeldWithout(pending: map<nat, Parked>, op: nat, n: nat)
    requires op < n && op in pending
    ensures Held(pending, n) == Held(pending - {op}, n) + if pending[op].p != null then pending[op].size else 0
  {
    if op == n - 1 {
      HeldSame(pending, pending - {op}, n - 1);
    } else {
      HeldWithout(pending, op, n - 1);
    }
  }

  /** A waiting operation owns a live block of the right size exactly when it flattened. */
  ghost predicate Waits(w: Parked, live: set<array<Octet>>) {
    var (first, flatten) := Settings(w.b, COALESCE_LIMIT);
    if flatten then w.p != null && w.p in live && w.size == first == w.p.Length else w.p == null
  }

  /** The live blocks are those of the waiting operations, one each. */
  ghost predicate Owned(pending: map<nat, Parked>, live: set<array<Octet>>) {
    && (forall op :: op in pending ==> Waits(pending[op], live))
    && (forall i, j :: i in pending && j in pending && i != j && pending[i].p != null ==> pending[i].p != pending[j].p)
    && (forall a :: a in live ==> exists op :: op in pending && pending[op].p == a)
  }

  /** Every request either has its outcome or is waiting. */
  ghost predicate Accounted(pending: map<nat, Parked>, requests: seq<seq<Buffer>>, outcomes: map<nat, Outcome>) {
    && (forall op :: op in pending ==> op < |requests| && op !in outcomes && pending[op].b == requests[op])
    && (forall op :: op in outcomes ==> op < |requests|)
    && (forall op: nat :: op < |requests| ==> op in pending || op in outcomes)
  }

  lemma OwnedPark(pending: map<nat, Parked>, live: set<array<Octet>>, op: nat, w: Parked, live': set<array<Octet>>)
    requires Owned(pending, live) && op !in pending && Waits(w, live')
    requires live' == if w.p == null then live else live + {w.p}
    requires w.p !in live
    ensures Owned(pending[op := w], live')
  {
    var pending' := pending[op := w];
    forall i | i in pending' ensures Waits(pending'[i], live') {
      if i != op { assert Waits(pending[i], live); }
    }
    forall a | a in live' ensures exists i :: i in pending' && pending'[i].p == a {
      if a in live {
        var i :| i in pending && pending[i].p == a;
        assert i in pending' && pending'[i].p == a;
      } else {
        assert op in pending' && pending'[op].p == a;
      }
    }
  }

  lemma OwnedUnpark(pending: map<nat, Parked>, live: set<array<Octet>>, op: nat, live': set<array<Octet>>)
    requires Owned(pending, live) && op in pending
    requires live' == if pending[op].p == null then live else live - {pending[op].p}
    ensures Owned(pending - {op}, live')
  {
    var pending' := pending - {op};
    assert Waits(pending[op], live);
    forall i | i in pending' ensures Waits(pending'[i], live') {
      assert Waits(pending[i], live);
    }
    forall a | a in live' ensures exists i :: i in pending' && pending'[i].p == a {
      var i :| i in pending && pending[i].p == a;
      assert i in pending' && pending'[i].p == a;
    }
  }

  /** The whole bookkeeping of a stream with writes in flight: what is waiting, what the allocator has
      given out, and the log of all that happened. */
  ghost predicate Consistent(
      pending: map<nat, Parked>, requests: seq<seq<Buffer>>, outcomes: map<nat, Outcome>,
      live: set<array<Octet>>, liveBytes: nat, log: seq<WriteEvent>)
  {
    && Accounted(pending, requests, outcomes)
    && Owned(pending, live)
    && liveBytes == Held(pending, |requests|)
    && Orderly(log, requests, outcomes)
  }

  lemma ConsistentBegin(
      pending: map<nat, Parked>, requests: seq<seq<Buffer>>, outcomes: map<nat, Outcome>,
      live: set<array<Octet>>, liveBytes: nat, log: seq<WriteEvent>, w: Parked, live': set<array<Octet>>)
    requires Consistent(pending, requests, outcomes, live, liveBytes, log)
    requires Waits(w, live') && w.p !in live && live' == if w.p == null then live else live + {w.p}
    ensures Consistent(pending[|requests| := w], requests + [w.b], outcomes, live',
                       liveBytes + (if w.p == null then 0 else w.size), log + Beginning(|requests|, w.b))
  {
    var op := |requests|;
    OrderlyBegin(log, requests, outcomes, w.b);
    OwnedPark(pending, live, op, w, live');
    HeldSame(pending, pending[op := w], op);
  }

  lemma ConsistentEnd(
      pending: map<nat, Parked>, requests: seq<seq<Buffer>>, outcomes: map<nat, Outcome>,
      live: set<array<Octet>>, liveBytes: nat, log: seq<WriteEvent>, op: nat, o: Outcome)
    requires Consistent(pending, requests, outcomes, live, liveBytes, log) && op in pending
    ensures Waits(pending[op], live) && op < |requests| && pending[op].b == requests[op]
    ensures var (p, size) := (pending[op].p, pending[op].size);
            && (p != null ==> size <= liveBytes)
            && Consistent(pending - {op}, requests, outcomes[op := o], if p == null then live else live - {p},
                          liveBytes - (if p == null then 0 else size), log + Ending(op, requests[op], o))
  {
    HeldWithout(pending, op, |requests|);
    OrderlyEnd(log, requests, outcomes, op, o);
    OwnedUnpark(pending, live, op, if pending[op].p == null then live else live - {pending[op].p});
  }

  /** The bytes that the requests below `n` without an outcome were flattened into. */
  function Outstanding(requests: seq<seq<Buffer>>, outcomes: map<nat, Outcome>, n: nat): nat
    requires n <= |requests|
  {
    if n == 0 then 0
    else
      var (first, flatten) := Settings(requests[n - 1], COALESCE_LIMIT);
      Outstanding(requests, outcomes, n - 1) + if n - 1 !in outcomes && flatten then first else 0
  }

  lemma {:induction false} HeldIsOutstanding(
      pending: map<nat, Parked>, requests: seq<seq<Buffer>>, outcomes: map<nat, Outcome>,
      live: set<array<Octet>>, n: nat)
    requires Accounted(pending, requests, outcomes) && Owned(pending, live) && n <= |requests|
    ensures Held(pending, n) == Outstanding(requests, outcomes, n)
  {
    if n == 0 {
    } else {
      HeldIsOutstanding(pending, requests, outcomes, live, n - 1);
      if n - 1 in pending {
        assert Waits(pending[n - 1], live);
      }
    }
  }

  /** The allocator ledger. In every reachable state the live bytes are those of the flattened copies
      of waiting writes and nothing else; when none waits any more nothing is live, and every handler has
      run but those of abandoned writes. */
  lemma LedgerBalances(
      pending: map<nat, Parked>, requests: seq<seq<Buffer>>, outcomes: map<nat, Outcome>,
      live: set<array<Octet>>, liveBytes: nat, log: seq<WriteEvent>)
    requires Consistent(pending, requests, outcomes, live, liveBytes, log)
    ensures liveBytes == Outstanding(requests, outcomes, |requests|)
    ensures pending == map[] ==> live == {} && liveBytes == 0
    ensures forall op: nat :: op < |requests| ==>
              (op in outcomes <==> op !in pending)
              && forall ec, n :: Handled(op, ec, n) in log <==> op in outcomes && outcomes[op] == Finished(ec, n)
  {
    HeldIsOutstanding(pending, requests, outcomes, live, |requests|);
    if pending == map[] {
      HeldEmpty(|requests|);
    }
    forall op: nat, ec, n | op < |requests|
      ensures Handled(op, ec, n) in log <==> op in outcomes && outcomes[op] == Finished(ec, n)
    {
      HandledIffFinished(log, requests, outcomes, op, ec, n);
    }
  }

  lemma {:induction false} HeldEmpty(n: nat)
    ensures Held(map[], n) == 0
  {
    if n == 0 {
    } else {
      HeldEmpty(n - 1);
    }
  }

  /** The composed write operation while it runs: its buffers, its heap buffer and the size that the
      deleter of that buffer will use. */
  class WriteOp {
    const b: seq<Buffer>
    var p: array?<Octet>
    var size: nat

    constructor (b: seq<Buffer>)
      ensures this.b == b && p == null && size == 0
    {
      this.b := b;
      p, size := null, 0;
    }

    /** Moving the operation out of the next layer. */
    constructor Move(from: Parked)
      ensures b == from.b && p == from.p && size == from.size
    {
      b, p, size := from.b, from.p, from.size;
    }

    /** The first call of the operation: chooses what to offer and, if that is to be flattened, copies
        it into a block of its own. */
    method Begin(alloc: Allocator, ghost op: nat) returns (offer: seq<Buffer>, ghost events: seq<WriteEvent>)
      requires p == null
      modifies this, alloc
      ensures offer == Offer(b, COALESCE_LIMIT) && events == Beginning(op, b)
      ensures var (first, flatten) := Settings(b, COALESCE_LIMIT);
              if flatten then
                && p != null && fresh(p) && p.Length == size == first && [p[..]] == offer
                && alloc.live == old(alloc.live) + {p} && alloc.liveBytes == old(alloc.liveBytes) + size
              else
                && p == null
                && alloc.live == old(alloc.live) && alloc.liveBytes == old(alloc.liveBytes)
    {
      events := [];
      var first, flatten := Coalesce(b, COALESCE_LIMIT);
      SettingsBounds(b, COALESCE_LIMIT);
      if flatten {
        size := first;
        p := alloc.Allocate(size);
        events := events + [Allocated(op, size)];
        var copied := BufferCopy(p, b, first);
        assert copied == first && p[..] == p[..first];
        offer := [p[..]];
      } else {
        if b != [] {
          assert Flatten(b)[..first] == b[0][..first];
        }
        offer := Prefix(first, b);
      }
      events := events + [Offered(op, offer)];
    }

    /** The second call, when the next layer has completed the write: the unique pointer gives its
        block back, if it has one, and then the caller's handler runs. */
    method Resume(alloc: Allocator, ghost op: nat, ec: ErrorCode, n: nat) returns (ghost events: seq<WriteEvent>)
      requires Waits(Parked(b, p, size), alloc.live)
      requires p != null ==> size <= alloc.liveBytes
      modifies this, alloc
      ensures p == null && events == Ending(op, b, Finished(ec, n))
      ensures alloc.live == (if old(p) == null then old(alloc.live) else old(alloc.live) - {old(p)})
      ensures alloc.liveBytes == old(alloc.liveBytes) - if old(p) == null then 0 else old(size)
    {
      events := [Completed(op, ec, n)];
      ghost var freed := Reset(alloc, op);
      events := events + freed + [Handled(op, ec, n)];
    }

    /** Resetting the unique pointer: its deleter gives the block back with the size it was told. */
    method Reset(alloc: Allocator, ghost op: nat) returns (ghost events: seq<WriteEvent>)
      requires Waits(Parked(b, p, size), alloc.live)
      requires p != null ==> size <= alloc.liveBytes
      modifies this, alloc
      ensures p == null && events == if old(p) == null then [] else [Freed(op, old(size))]
      ensures alloc.live == (if old(p) == null then old(alloc.live) else old(alloc.live) - {old(p)})
      ensures alloc.liveBytes == old(alloc.liveBytes) - if old(p) == null then 0 else old(size)
    {
      events := [];
      if p != null {
        alloc.Deallocate(p, size);
        events := [Freed(op, size)];
        p := null;
      }
    }

    /** Destroying the operation, which the next layer does if it never resumes it: no second call and no
        handler, but the unique pointer still gives its block back. */
    method Destroy(alloc: Allocator, ghost op: nat) returns (ghost events: seq<WriteEvent>)
      requires Waits(Parked(b, p, size), alloc.live)
      requires p != null ==> size <= alloc.liveBytes
      modifies this, alloc
      ensures p == null && events == Ending(op, b, Abandoned)
      ensures alloc.live == (if old(p) == null then old(alloc.live) else old(alloc.live) - {old(p)})
      ensures alloc.liveBytes == old(alloc.liveBytes) - if old(p) == null then 0 else old(size)
    {
      events := [Dropped(op)];
      ghost var freed := Reset(alloc, op);
      events := events + freed;
    }
  }

  /** One event of the environment: a caller starts a write, or the next layer completes one or destroys
      it unfinished. */
  datatype Action = Start(buffers: seq<Buffer>) | Finish(op: nat, ec: ErrorCode, n: nat) | Abandon(op: nat)

  /** What the callers and the next layer can know of the writes so far. */
  datatype History = History(requests: seq<seq<Buffer>>, outcomes: map<nat, Outcome>, log: seq<WriteEvent>) {
    /** One more write. */
    function Begun(b: seq<Buffer>): History {
      History(requests + [b], outcomes, log + Beginning(|requests|, b))
    }

    /** A write gets its outcome; one that was never started, or has one already, cannot. */
    function Decided(op: nat, o: Outcome): History {
      if op < |requests| && op !in outcomes then History(requests, outcomes[op := o], log + Ending(op, requests[op], o))
      else this
    }

    function After(a: Action): History {
      match a
      case Start(b) => Begun(b)
      case Finish(op, ec, n) => Decided(op, Finished(ec, n))
      case Abandon(op) => Decided(op, Abandoned)
    }
  }

  function Played(h: History, script: seq<Action>): History {
    if script == [] then h else Played(h, script[..|script| - 1]).After(script[|script| - 1])
  }

  /** The write that an action gives its outcome. */
  function Deciding(a: Action): Option<(nat, Outcome)> {
    match a
    case Start(_) => None
    case Finish(op, ec, n) => Some((op, Finished(ec, n)))
    case Abandon(op) => Some((op, Abandoned))
  }

  /** How many writes a script starts. */
  function Starts(script: seq<Action>): nat {
    if script == [] then 0
    else Starts(script[..|script| - 1]) + if script[|script| - 1].Start? then 1 else 0
  }

  /** Action `i` concerns write `op`, which has been started before. */
  predicate DecidesAt(script: seq<Action>, i: nat, op: nat) {
    && i < |script|
    && Deciding(script[i]).Some? && Deciding(script[i]).value.0 == op
    && op < Starts(script[..i])
  }

  predicate DecidesFirst(script: seq<Action>, i: nat, op: nat) {
    DecidesAt(script, i, op) && forall j: nat :: j < i ==> !DecidesAt(script, j, op)
  }

  const NOTHING_YET: History := History([], map[], [])

  lemma DecidesStep(script: seq<Action>, op: nat)
    requires script != []
    ensures var front, n := script[..|script| - 1], |script| - 1;
            && (forall i: nat :: i < n ==>
                  script[i] == front[i] && (DecidesAt(script, i, op) <==> DecidesAt(front, i, op)))
            && (forall i: nat :: i >= n ==> !DecidesAt(front, i, op))
            && (forall i: nat :: i > n ==> !DecidesAt(script, i, op))
            && (DecidesAt(script, n, op) <==> Decides(script[n], op, Starts(front)))
  {
    var front := script[..|script| - 1];
    assert forall i: nat :: i < |front| ==> script[i] == front[i] && script[..i] == front[..i];
  }

  /** An action decides write `op` if that is one of the `n` writes started before. */
  predicate Decides(a: Action, op: nat, n: nat) {
    Deciding(a).Some? && Deciding(a).value.0 == op && op < n
  }

  lemma AfterStep(h: History, a: Action, op: nat)
    ensures var h' := h.After(a);
            && |h'.requests| == |h.requests| + (if a.Start? then 1 else 0)
            && Lookup(h'.outcomes, op)
            == (if op in h.outcomes then Some(h.outcomes[op])
                else if Decides(a, op, |h.requests|) then Some(Deciding(a).value.1) else None)
  {
    hide Beginning;
    hide Ending;
  }

  lemma {:induction false} DecidedIff(script: seq<Action>, op: nat)
    ensures |Played(NOTHING_YET, script).requests| == Starts(script)
    ensures op in Played(NOTHING_YET, script).outcomes <==> exists i: nat :: DecidesAt(script, i, op)
  {
    if script == [] {
    } else {
      var front, n := script[..|script| - 1], |script| - 1;
      DecidedIff(front, op);
      DecidesStep(script, op);
      AfterStep(Played(NOTHING_YET, front), script[n], op);
      hide DecidesAt;
      hide Decides;
      if i: nat :| DecidesAt(script, i, op) {
        assert DecidesAt(front, i, op) || i == n;
      }
    }
  }

  /** Which writes of a script have which outcome: that of the first action that concerns the write after
      its start. All others are still waiting. */
  lemma {:induction false} FirstDecisionStands(script: seq<Action>, op: nat, o: Outcome)
    ensures var h := Played(NOTHING_YET, script);
            && |h.requests| == Starts(script)
            && (Lookup(h.outcomes, op) == Some(o) <==>
                exists i: nat :: DecidesFirst(script, i, op) && Deciding(script[i]).value.1 == o)
  {
    hide Beginning;
    hide Ending;
    hide DecidesAt;
    hide Decides;
    hide Deciding;
    hide Starts;
    DecidedIff(script, op);
    if script == [] {
    } else {
      var front, n := script[..|script| - 1], |script| - 1;
      FirstDecisionStands(front, op, o);
      DecidedIff(front, op);
      DecidesStep(script, op);
      AfterStep(Played(NOTHING_YET, front), script[n], op);
      var h, before := Played(NOTHING_YET, script), Played(NOTHING_YET, front);
      assert h == before.After(script[n]);
      hide Played;
      if op in before.outcomes {
        var k: nat :| DecidesAt(front, k, op);
        assert forall i: nat :: DecidesFirst(script, i, op) <==> DecidesFirst(front, i, op);
      } else {
        assert forall i: nat :: DecidesFirst(script, i, op) <==> i == n && DecidesAt(script, n, op);
      }
    }
  }

  class AsyncStream {
    const alloc: Allocator
    var pending: map<nat, Parked>
    var requests: seq<seq<Buffer>>
    ghost var outcomes: map<nat, Outcome>
    ghost var log: seq<WriteEvent>

    constructor ()
      ensures Valid() && fresh(alloc)
      ensures pending == map[] && requests == [] && outcomes == map[] && log == []
    {
      alloc := new Allocator();
      pending, requests, outcomes, log := map[], [], map[], [];
    }

    /** The blocks of waiting operations still hold the bytes that the next layer was offered. */
    ghost predicate Intact()
      reads this, alloc, alloc.live
    {
      forall op :: op in pending && pending[op].p != null && pending[op].p in alloc.live ==>
        [pending[op].p[..]] == Offer(pending[op].b, COALESCE_LIMIT)
    }

    ghost predicate Valid()
      reads this, alloc, alloc.live
    {
      && Consistent(pending, requests, outcomes, alloc.live, alloc.liveBytes, log)
      && Intact()
    }

    /** Starting a write: coalesce, copy into a block of the handler's allocator if need be, and move
        the operation into the next layer. */
    method AsyncWriteSome(buffers: seq<Buffer>)
      requires Valid()
      modifies this, alloc
      ensures Valid()
      ensures requests == old(requests) + [buffers] && outcomes == old(outcomes)
      ensures var op := |old(requests)|;
              op in pending && pending == old(pending)[op := pending[op]] && pending[op].b == buffers
      ensures log == old(log) + Beginning(|old(requests)|, buffers)
    {
      hide Consistent;
      var op := |requests|;
      var running := new WriteOp(buffers);
      ghost var events;
      var offer;
      offer, events := running.Begin(alloc, op);
      log := log + events;
      var w := Parked(running.b, running.p, running.size);
      ConsistentBegin(pending, requests, outcomes, old(alloc.live), old(alloc.liveBytes), old(log), w, alloc.live);
      pending, requests := pending[op := w], requests + [buffers];
      running.p := null;
    }

    ghost function Past(): History
      reads this
    {
      History(requests, outcomes, log)
    }

    /** The next layer completes a waiting operation: the operation frees its buffer and only then
        runs the caller's handler. */
    method Complete(op: nat, ec: ErrorCode, n: nat)
      requires Valid() && op in pending
      modifies this, alloc
      ensures Valid()
      ensures Past() == old(Past()).Decided(op, Finished(ec, n)) && op in outcomes && op !in old(outcomes)
      ensures pending == old(pending) - {op}
    {
      hide Consistent;
      hide Settings;
      hide Ending;
      hide Offer;
      WaitingOrNot();
      var running := new WriteOp.Move(pending[op]);
      ConsistentEnd(pending, requests, outcomes, alloc.live, alloc.liveBytes, log, op, Finished(ec, n));
      pending := pending - {op};
      outcomes := outcomes[op := Finished(ec, n)];
      ghost var events := running.Resume(alloc, op, ec, n);
      log := log + events;
    }

    /** The next layer destroys a waiting operation instead: its buffer is freed and no handler runs. */
    method Abandon(op: nat)
      requires Valid() && op in pending
      modifies this, alloc
      ensures Valid()
      ensures Past() == old(Past()).Decided(op, Abandoned) && op in outcomes && op !in old(outcomes)
      ensures pending == old(pending) - {op}
    {
      hide Consistent;
      hide Settings;
      hide Ending;
      hide Offer;
      WaitingOrNot();
      var running := new WriteOp.Move(pending[op]);
      ConsistentEnd(pending, requests, outcomes, alloc.live, alloc.liveBytes, log, op, Abandoned);
      pending := pending - {op};
      outcomes := outcomes[op := Abandoned];
      ghost var events := running.Destroy(alloc, op);
      log := log + events;
    }

    /** Any interleaving: starts, completions and destructions in whatever order the environment picks
        them. The requests, the outcomes and the log are those of the script played one by one. */
    method Interleave(script: seq<Action>)
      requires Valid()
      modifies this, alloc
      ensures Valid()
      ensures Past() == Played(old(Past()), script)
    {
      hide Consistent;
      for i := 0 to |script|
        invariant Valid()
        invariant Past() == Played(old(Past()), script[..i])
      {
        assert script[..i + 1][..i] == script[..i];
        WaitingOrNot();
        match script[i]
        case Start(buffers) => AsyncWriteSome(buffers);
        case Finish(op, ec, n) =>
          if op in pending {
            Complete(op, ec, n);
          }
        case Abandon(op) =>
          if op in pending {
            Abandon(op);
          }
      }
      assert script[..|script|] == script;
    }

    /** An operation waits exactly if it was started and has no outcome. */
    lemma WaitingOrNot()
      requires Valid()
      ensures forall op: nat :: op in pending <==> op < |requests| && op !in outcomes
    {
    }
  }
}
