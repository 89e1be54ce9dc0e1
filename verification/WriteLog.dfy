/**
 The history of asynchronous writes: what happens in the life of one operation, and what follows for
 a log in which the lives of many operations are interleaved.
 */
module WriteLog {
  import opened Common
  import opened Buffers
  import opened Coalescing
  import opened FlatWrites

  datatype WriteEvent =
    | Allocated(op: nat, size: nat)
    | Offered(op: nat, buffers: seq<Buffer>)
    | Completed(op: nat, ec: ErrorCode, n: nat)
    | Dropped(op: nat)
    | Freed(op: nat, size: nat)
    | Handled(op: nat, ec: ErrorCode, n: nat)

  /** What became of a write: the next layer completed it, or destroyed the operation without ever
      resuming it. */
  datatype Outcome = Finished(ec: ErrorCode, n: nat) | Abandoned

  /** What an operation does when it is started. */
  function Beginning(op: nat, b: seq<Buffer>): seq<WriteEvent> {
    var (first, flatten) := Settings(b, COALESCE_LIMIT);
    (if flatten then [Allocated(op, first)] else []) + [Offered(op, Offer(b, COALESCE_LIMIT))]
  }

  /** The next layer's part in an outcome. */
  function Verdict(op: nat, o: Outcome): WriteEvent {
    match o
    case Finished(ec, n) => Completed(op, ec, n)
    case Abandoned => Dropped(op)
  }

  /** What it does when the next layer is done with it: give its block back, if it has one, and then,
      unless it was destroyed, run the handler. */
  function Ending(op: nat, b: seq<Buffer>, o: Outcome): seq<WriteEvent> {
    var (first, flatten) := Settings(b, COALESCE_LIMIT);
    [Verdict(op, o)] + (if flatten then [Freed(op, first)] else [])
    + match o case Finished(ec, n) => [Handled(op, ec, n)] case Abandoned => []
  }

  function Life(op: nat, b: seq<Buffer>, outcome: Option<Outcome>): seq<WriteEvent> {
    Beginning(op, b) + match outcome case None => [] case Some(o) => Ending(op, b, o)
  }

  /** The part of a log that concerns one operation. */
  function Project(log: seq<WriteEvent>, op: nat): seq<WriteEvent> {
    if log == [] then []
    else
      var e := log[|log| - 1];
      Project(log[..|log| - 1], op) + if e.op == op then [e] else []
  }

  lemma {:induction false} ProjectConcat(a: seq<WriteEvent>, b: seq<WriteEvent>, op: nat)
    ensures Project(a + b, op) == Project(a, op) + Project(b, op)
  {
    if b == [] {
      assert a + b == a;
    } else {
      assert (a + b)[..|a + b| - 1] == a + b[..|b| - 1];
      ProjectConcat(a, b[..|b| - 1], op);
    }
  }

  predicate AllOf(es: seq<WriteEvent>, op: nat) {
    forall e :: e in es ==> e.op == op
  }

  lemma {:induction false} ProjectOwn(es: seq<WriteEvent>, op: nat, other: nat)
    requires AllOf(es, op)
    ensures Project(es, other) == if other == op then es else []
  {
    if es == [] {
    } else {
      var front, e := es[..|es| - 1], es[|es| - 1];
      assert e in es && forall x :: x in front ==> x in es;
      ProjectOwn(front, op, other);
      assert front + [e] == es;
    }
  }

  /** Appending events of one operation leaves the histories of all others alone. */
  lemma ProjectAppend(log: seq<WriteEvent>, es: seq<WriteEvent>, op: nat, other: nat)
    requires AllOf(es, op)
    ensures Project(log + es, other) == Project(log, other) + if other == op then es else []
  {
    hide Project;
    ProjectConcat(log, es, other);
    ProjectOwn(es, op, other);
  }

  /** The operation has lived so far exactly as it should; one that was never started not at all. */
  predicate OrderlyFor(log: seq<WriteEvent>, requests: seq<seq<Buffer>>, outcomes: map<nat, Outcome>, op: nat) {
    Project(log, op) == if op < |requests| then Life(op, requests[op], Lookup(outcomes, op)) else []
  }

  ghost predicate Orderly(log: seq<WriteEvent>, requests: seq<seq<Buffer>>, outcomes: map<nat, Outcome>) {
    forall op: nat :: OrderlyFor(log, requests, outcomes, op)
  }

  function Lookup<V>(m: map<nat, V>, k: nat): Option<V> {
    if k in m then Some(m[k]) else None
  }

  lemma OrderlyBegin(log: seq<WriteEvent>, requests: seq<seq<Buffer>>, outcomes: map<nat, Outcome>, b: seq<Buffer>)
    requires Orderly(log, requests, outcomes) && |requests| !in outcomes
    ensures Orderly(log + Beginning(|requests|, b), requests + [b], outcomes)
  {
    var op := |requests|;
    forall other: nat ensures OrderlyFor(log + Beginning(op, b), requests + [b], outcomes, other) {
      assert OrderlyFor(log, requests, outcomes, other);
      ProjectAppend(log, Beginning(op, b), op, other);
    }
  }

  lemma OrderlyEnd(
      log: seq<WriteEvent>, requests: seq<seq<Buffer>>, outcomes: map<nat, Outcome>, op: nat, o: Outcome)
    requires Orderly(log, requests, outcomes) && op < |requests| && op !in outcomes
    ensures Orderly(log + Ending(op, requests[op], o), requests, outcomes[op := o])
  {
    hide Project;
    hide Settings;
    var log', outcomes' := log + Ending(op, requests[op], o), outcomes[op := o];
    forall other: nat ensures OrderlyFor(log', requests, outcomes', other) {
      assert OrderlyFor(log, requests, outcomes, other);
      ProjectAppend(log, Ending(op, requests[op], o), op, other);
    }
  }

  lemma ProjectCut(log: seq<WriteEvent>, k: nat, op: nat)
    requires k <= |log|
    ensures Project(log, op) == Project(log[..k], op) + Project(log[k..], op)
  {
    hide Project;
    assert log == log[..k] + log[k..];
    ProjectConcat(log[..k], log[k..], op);
  }

  lemma ProjectStep(log: seq<WriteEvent>, i: nat)
    requires i < |log|
    ensures Project(log[..i + 1], log[i].op) == Project(log[..i], log[i].op) + [log[i]]
  {
    assert log[..i + 1][..i] == log[..i];
  }

  /** Each logged event stands exactly where the life of its operation puts it. */
  lemma PlaceInLife(log: seq<WriteEvent>, requests: seq<seq<Buffer>>, outcomes: map<nat, Outcome>, i: nat)
    requires Orderly(log, requests, outcomes) && i < |log|
    ensures var op := log[i].op;
            && op < |requests|
            && var life := Life(op, requests[op], Lookup(outcomes, op));
            var m := |Project(log[..i], op)|;
            m < |life| && log[i] == life[m] && Project(log[..i], op) == life[..m]
  {
    hide Life;
    hide Project;
    var op := log[i].op;
    assert OrderlyFor(log, requests, outcomes, op);
    ProjectStep(log, i);
    ProjectCut(log, i + 1, op);
    var before := Project(log[..i], op);
    assert Project(log, op)[..|before|] == before && Project(log, op)[|before|] == log[i];
  }

  lemma {:induction false} ProjectMember(log: seq<WriteEvent>, e: WriteEvent)
    ensures e in Project(log, e.op) <==> e in log
  {
    if log == [] {
    } else {
      ProjectMember(log[..|log| - 1], e);
      assert log == log[..|log| - 1] + [log[|log| - 1]];
    }
  }

  /** What a write hands to the next layer is a prefix of its own bytes. It does so before any answer, and,
      if it offers more than its first buffer, out of a block of just that size allocated before. */
  lemma OfferedFromOwnBlock(
      log: seq<WriteEvent>, requests: seq<seq<Buffer>>, outcomes: map<nat, Outcome>, i: nat)
    requires Orderly(log, requests, outcomes) && i < |log| && log[i].Offered?
    ensures var op, bytes := log[i].op, Flatten(log[i].buffers);
            && op < |requests| && bytes <= Flatten(requests[op])
            && (requests[op] != [] && bytes != requests[op][0] ==> Allocated(op, |bytes|) in log[..i])
            && (forall size :: Allocated(op, size) in log ==> size == |bytes| <= COALESCE_LIMIT)
            && (forall j :: 0 <= j < i && log[j].op == op ==> log[j].Allocated?)
  {
    hide Project;
    var op := log[i].op;
    PlaceInLife(log, requests, outcomes, i);
    var before := Project(log[..i], op);
    var b := requests[op];
    var life := Life(op, b, Lookup(outcomes, op));
    OfferSize(b, COALESCE_LIMIT);
    SettingsBounds(b, COALESCE_LIMIT);
    if b != [] && !Settings(b, COALESCE_LIMIT).1 {
      OfferWhole(b, COALESCE_LIMIT);
    }
    hide Settings;
    hide Offer;
    hide Flatten;
    assert log[i].buffers == Offer(b, COALESCE_LIMIT);
    forall size | Allocated(op, size) in log ensures size == |Flatten(log[i].buffers)| <= COALESCE_LIMIT {
      ProjectMember(log, Allocated(op, size));
      assert OrderlyFor(log, requests, outcomes, op);
    }
    forall j | 0 <= j < i && log[j].op == op ensures log[j].Allocated? {
      assert log[j] in log[..i];
      ProjectMember(log[..i], log[j]);
    }
    if b != [] && Flatten(log[i].buffers) != b[0] {
      assert before[0] in before;
      ProjectMember(log[..i], before[0]);
    }
  }

  /** Without flattening, the first buffer is offered as it is. */
  lemma OfferWhole(b: seq<Buffer>, limit: nat)
    requires b != [] && !Settings(b, limit).1
    ensures Flatten(Offer(b, limit)) == b[0]
  {
    SettingsBounds(b, limit);
    OfferSize(b, limit);
    assert Flatten(b)[..|b[0]|] == b[0];
  }

  /** Safety of every free in every interleaving: the buffer was allocated with that size and not
      freed before, and the next layer has already completed or given up the write that reads it. */
  lemma FreedOnceAfterCompletion(
      log: seq<WriteEvent>, requests: seq<seq<Buffer>>, outcomes: map<nat, Outcome>, i: nat)
    requires Orderly(log, requests, outcomes) && i < |log| && log[i].Freed?
    ensures var op := log[i].op;
            && Allocated(op, log[i].size) in log[..i]
            && op in outcomes
            && (match outcomes[op]
                case Finished(ec, n) => Completed(op, ec, n) in log[..i]
                case Abandoned => Dropped(op) in log[..i])
            && (forall j :: 0 <= j < i ==> !(log[j].Freed? && log[j].op == op))
            && (forall j :: 0 <= j < i ==> !(log[j].Handled? && log[j].op == op))
  {
    hide Project;
    hide Settings;
    var op := log[i].op;
    PlaceInLife(log, requests, outcomes, i);
    var before := Project(log[..i], op);
    var life := Life(op, requests[op], Lookup(outcomes, op));
    assert op in outcomes && |before| == 3 && before == life[..3];
    ProjectMember(log[..i], before[0]);
    ProjectMember(log[..i], before[2]);
    assert before[0] in before && before[2] in before;
    forall j | 0 <= j < i ensures !((log[j].Freed? || log[j].Handled?) && log[j].op == op) {
      assert log[j] in log[..i];
      ProjectMember(log[..i], log[j]);
    }
  }

  /** A handler runs once, with the outcome of its own write, after its buffer (if any) was freed. */
  lemma HandledOnceAfterFree(
      log: seq<WriteEvent>, requests: seq<seq<Buffer>>, outcomes: map<nat, Outcome>, i: nat)
    requires Orderly(log, requests, outcomes) && i < |log| && log[i].Handled?
    ensures var op := log[i].op;
            && op < |requests| && op in outcomes && outcomes[op] == Finished(log[i].ec, log[i].n)
            && Completed(op, log[i].ec, log[i].n) in log[..i]
            && (forall size :: Allocated(op, size) in log ==> Freed(op, size) in log[..i])
            && (forall j :: 0 <= j < |log| && j != i ==> !(log[j].Handled? && log[j].op == op))
  {
    hide Project;
    hide Settings;
    var op := log[i].op;
    PlaceInLife(log, requests, outcomes, i);
    var before := Project(log[..i], op);
    var life := Life(op, requests[op], Lookup(outcomes, op));
    assert |before| == |life| - 1 && before == life[..|life| - 1];
    var done := Completed(op, log[i].ec, log[i].n);
    assert done == before[|Beginning(op, requests[op])|];
    ProjectMember(log[..i], done);
    forall size | Allocated(op, size) in log ensures Freed(op, size) in log[..i] {
      ProjectMember(log, Allocated(op, size));
      assert OrderlyFor(log, requests, outcomes, op);
      assert Allocated(op, size) == life[0] && Freed(op, size) == life[3];
      assert before[3] == Freed(op, size);
      ProjectMember(log[..i], Freed(op, size));
    }
    forall j | 0 <= j < |log| && j != i && log[j].Handled? ensures log[j].op != op {
      if log[j].op == op {
        LastOnlyOnce(log, requests, outcomes, if i < j then i else j, if i < j then j else i);
      }
    }
  }

  /** A handler has run with an outcome exactly if its write finished with it; that of an abandoned write
      never runs. */
  lemma HandledIffFinished(
      log: seq<WriteEvent>, requests: seq<seq<Buffer>>, outcomes: map<nat, Outcome>, op: nat, ec: ErrorCode, n: nat)
    requires Orderly(log, requests, outcomes) && op < |requests|
    ensures Handled(op, ec, n) in log <==> op in outcomes && outcomes[op] == Finished(ec, n)
  {
    hide Project;
    hide Settings;
    var e := Handled(op, ec, n);
    ProjectMember(log, e);
    assert OrderlyFor(log, requests, outcomes, op);
    var life := Life(op, requests[op], Lookup(outcomes, op));
    if op in outcomes && outcomes[op].Finished? {
      assert life[|life| - 1] == Handled(op, outcomes[op].ec, outcomes[op].n);
      assert forall i :: 0 <= i < |life| - 1 ==> !life[i].Handled?;
    }
  }

  /** A block has been freed exactly if it was allocated and its write has an outcome, whether completed or
      abandoned; and the next layer's part is logged exactly as the outcome says. */
  lemma FreedIffDecided(log: seq<WriteEvent>, requests: seq<seq<Buffer>>, outcomes: map<nat, Outcome>, op: nat)
    requires Orderly(log, requests, outcomes) && op < |requests|
    ensures forall size :: Freed(op, size) in log <==> op in outcomes && Allocated(op, size) in log
    ensures forall ec, n :: Completed(op, ec, n) in log <==> op in outcomes && outcomes[op] == Finished(ec, n)
    ensures Dropped(op) in log <==> op in outcomes && outcomes[op] == Abandoned
  {
    hide Project;
    hide Settings;
    hide Offer;
    assert OrderlyFor(log, requests, outcomes, op);
    var life := Life(op, requests[op], Lookup(outcomes, op));
    forall size ensures Freed(op, size) in log <==> op in outcomes && Allocated(op, size) in log {
      ProjectMember(log, Freed(op, size));
      ProjectMember(log, Allocated(op, size));
      assert forall i :: 0 <= i < |life| && life[i] == Freed(op, size) ==> life[0] == Allocated(op, size);
      assert op in outcomes && Allocated(op, size) in life ==> life[3] == Freed(op, size);
    }
    forall ec, n ensures Completed(op, ec, n) in log <==> op in outcomes && outcomes[op] == Finished(ec, n) {
      ProjectMember(log, Completed(op, ec, n));
      assert op in outcomes ==> life[|Beginning(op, requests[op])|] == Verdict(op, outcomes[op]);
    }
    ProjectMember(log, Dropped(op));
    assert op in outcomes ==> life[|Beginning(op, requests[op])|] == Verdict(op, outcomes[op]);
  }

  lemma {:induction false} ProjectMonotone(log: seq<WriteEvent>, i: nat, j: nat, op: nat)
    requires i <= j <= |log|
    ensures |Project(log[..i], op)| <= |Project(log[..j], op)|
  {
    assert log[..j][..i] == log[..i];
    ProjectCut(log[..j], i, op);
  }

  lemma LastOnlyOnce(log: seq<WriteEvent>, requests: seq<seq<Buffer>>, outcomes: map<nat, Outcome>, i: nat, j: nat)
    requires Orderly(log, requests, outcomes) && i < j < |log|
    requires log[i].Handled? && log[j].Handled?
    ensures log[i].op != log[j].op
  {
    var op := log[i].op;
    PlaceInLife(log, requests, outcomes, i);
    PlaceInLife(log, requests, outcomes, j);
    ProjectMonotone(log, i + 1, j, op);
    assert log[..i + 1][..i] == log[..i];
  }
}
