/**
 How many writes the greedy choice of `coalesce` costs when the next layer takes all it is offered.
 */
module GreedyWrites {
  import opened Common
  import opened Buffers
  import opened Coalescing
  import opened FlatWrites

  /** Every answer is a success that would take any offer whole. */
  predicate TakesAll(env: seq<Reply>) {
    forall i :: 0 <= i < |env| ==> env[i].ec == SUCCESS && env[i].want >= SIZE_MAX
  }

  /** The number of writes of a run in which every offer is taken whole. */
  function Writes(rest: seq<Buffer>, limit: nat): nat
    requires Trimmed(rest) && limit <= SIZE_MAX && Bounded(rest, SIZE_MAX - limit)
    decreases |rest|
  {
    if rest == [] then 0
    else
      NextRest(rest, limit);
      1 + Writes(Trim(rest[Chosen(rest, limit)..]), limit)
  }

  /** After a write that was taken whole, what is left starts behind the chosen buffers. */
  lemma NextRest(rest: seq<Buffer>, limit: nat)
    requires Trimmed(rest) && rest != [] && limit <= SIZE_MAX && Bounded(rest, SIZE_MAX - limit)
    ensures var k := Chosen(rest, limit);
            var next := Trim(rest[k..]);
            && Settings(rest, limit).0 == Total(rest[..k]) <= Total(rest)
            && Consume(rest, Total(rest[..k])) == next
            && Total(next) == Total(rest) - Total(rest[..k])
            && |next| < |rest| && Bounded(next, SIZE_MAX - limit)
  {
    var k := Chosen(rest, limit);
    CoalesceTakesLongestPrefix(rest, limit);
    ConsumeWholeBuffers(rest, k);
    ConsumeKeepsStream(rest, Total(rest[..k]));
    ConsumeKeepsBound(rest, Total(rest[..k]), SIZE_MAX - limit);
    TrimKeepsStream(rest[k..]);
  }

  lemma {:induction false} RunMakesWrites(rest: seq<Buffer>, env: seq<Reply>, i: nat, limit: nat)
    requires Trimmed(rest) && limit <= SIZE_MAX && Bounded(rest, SIZE_MAX - limit)
    requires TakesAll(env)
    ensures |Drain(rest, env, i, limit).offers| == Writes(rest, limit)
    decreases |rest|
  {
    hide Consume;
    hide Settings;
    hide Flatten;
    hide Chosen;
    if rest == [] {
    } else {
      NextRest(rest, limit);
      OneWrite(rest, Answer(env, i), limit);
      SettingsBounds(rest, limit);
      var next := Trim(rest[Chosen(rest, limit)..]);
      assert Settings(rest, limit).0 <= SIZE_MAX;
      assert Taken(Answer(env, i), Settings(rest, limit).0) == Settings(rest, limit).0;
      RunMakesWrites(next, env, i + 1, limit);
    }
  }

  /** A group of consecutive buffers that one write may carry: one buffer, or up to the limit. */
  predicate Admissible(group: seq<Buffer>, limit: nat) {
    |group| == 1 || Total(group) <= limit
  }

  function Ungroup(groups: seq<seq<Buffer>>): seq<Buffer> {
    if groups == [] then [] else groups[0] + Ungroup(groups[1..])
  }

  /** Only a first buffer of exactly the limit keeps a write from covering a group that fits; the rest
      of the group is then empty buffers. */
  lemma StopsShortOfEmptiesOnly(head: seq<Buffer>, tail: seq<Buffer>, limit: nat)
    requires head != [] && Total(head) <= limit && |head[0]| >= limit
    ensures Trim((head + tail)[1..]) == Trim(tail)
  {
    var t := head + tail;
    assert Total(head) == |head[0]| + Total(head[1..]);
    assert t[1..][..|head| - 1] == head[1..];
    TrimEmptyPrefix(t[1..], |head| - 1);
    assert t[1..][|head| - 1..] == tail;
  }

  /** From anywhere inside an admissible group, one greedy write reaches at least the group's end. */
  lemma GreedyReachesGroupEnd(head: seq<Buffer>, tail: seq<Buffer>, limit: nat)
    requires head != [] && Admissible(head, limit)
    requires limit <= SIZE_MAX && Bounded(head + tail, SIZE_MAX - limit)
    ensures IsSuffix(Trim((head + tail)[Chosen(head + tail, limit)..]), tail)
  {
    var t := head + tail;
    var k := Chosen(t, limit);
    CoalesceTakesLongestPrefix(t, limit);
    hide Settings;
    hide Chosen;
    hide Total;
    hide Trim;
    if |head| > 1 && |head[0]| >= limit {
      StopsShortOfEmptiesOnly(head, tail, limit);
      TrimKeepsStream(tail);
    } else {
      assert t[..|head|] == head;
      assert k >= |head|;
      SuffixOfTail(head, tail, k);
    }
  }

  lemma SuffixOfTail(head: seq<Buffer>, tail: seq<Buffer>, k: nat)
    requires |head| <= k <= |head| + |tail|
    ensures IsSuffix(Trim((head + tail)[k..]), tail)
  {
    assert (head + tail)[k..] == tail[k - |head|..];
    TrimKeepsStream(tail[k - |head|..]);
    hide Trim;
    SuffixTrans(Trim(tail[k - |head|..]), tail[k - |head|..], tail);
  }

  lemma PartOfGroupAdmissible(front: seq<Buffer>, head: seq<Buffer>, limit: nat)
    requires head != [] && Admissible(front + head, limit)
    ensures Admissible(head, limit)
  {
    FlattenConcat(front, head);
  }

  /** One greedy write from inside the first group of a split leaves only buffers of later groups. */
  lemma AheadByOneGroup(t: seq<Buffer>, group: seq<Buffer>, tail: seq<Buffer>, limit: nat)
    requires IsSuffix(t, group + tail) && |t| > |tail| && Admissible(group, limit)
    requires limit <= SIZE_MAX && Bounded(t, SIZE_MAX - limit)
    ensures IsSuffix(Trim(t[Chosen(t, limit)..]), tail)
  {
    var head := t[..|t| - |tail|];
    var front := group[..|group| - |head|];
    assert t == head + tail && group == front + head;
    PartOfGroupAdmissible(front, head, limit);
    GreedyReachesGroupEnd(head, tail, limit);
  }

  /** Greedy stays ahead: whatever part of a split is still to be sent, greedy needs no more writes
      for it than the split has groups. */
  lemma {:induction false} StaysAhead(t: seq<Buffer>, groups: seq<seq<Buffer>>, limit: nat)
    requires Trimmed(t) && IsSuffix(t, Ungroup(groups))
    requires limit <= SIZE_MAX && Bounded(t, SIZE_MAX - limit)
    requires forall g :: g in groups ==> Admissible(g, limit)
    ensures Writes(t, limit) <= |groups|
    decreases |groups|
  {
    if t == [] {
    } else {
      var tail := Ungroup(groups[1..]);
      assert Ungroup(groups) == groups[0] + tail;
      if |t| <= |tail| {
        assert IsSuffix(t, tail);
        StaysAhead(t, groups[1..], limit);
      } else {
        AheadByOneGroup(t, groups[0], tail, limit);
        NextRest(t, limit);
        StaysAhead(Trim(t[Chosen(t, limit)..]), groups[1..], limit);
      }
    }
  }

  /** Greedy coalescing is optimal. When the next layer takes every offer whole, the caller's loop
      makes no more writes than there are groups in any split of the buffers into consecutive groups
      each of which is a single buffer or totals at most the limit. */
  lemma {:induction false} GreedyIsOptimal(
      bs: seq<Buffer>, env: seq<Reply>, i: nat, limit: nat, groups: seq<seq<Buffer>>)
    requires limit <= SIZE_MAX && Bounded(bs, SIZE_MAX - limit) && TakesAll(env)
    requires Ungroup(groups) == bs && forall g :: g in groups ==> Admissible(g, limit)
    ensures Bounded(Trim(bs), SIZE_MAX - limit)
    ensures |Drain(Trim(bs), env, i, limit).offers| <= |groups|
  {
    TrimKeepsStream(bs);
    StaysAhead(Trim(bs), groups, limit);
    RunMakesWrites(Trim(bs), env, i, limit);
  }

  /** With no empty buffers the run itself is such a split, so the optimum is attained. */
  lemma {:induction false} GreedySplit(bs: seq<Buffer>, limit: nat) returns (groups: seq<seq<Buffer>>)
    requires limit <= SIZE_MAX && Bounded(bs, SIZE_MAX - limit) && [] !in bs
    ensures Ungroup(groups) == bs && forall g :: g in groups ==> Admissible(g, limit)
    ensures |groups| == Writes(bs, limit)
    decreases |bs|
  {
    if bs == [] {
      groups := [];
    } else {
      var k := Chosen(bs, limit);
      NextRest(bs, limit);
      CoalesceTakesLongestPrefix(bs, limit);
      assert Trim(bs[k..]) == bs[k..];
      hide Settings;
      hide Consume;
      var others := GreedySplit(bs[k..], limit);
      groups := [bs[..k]] + others;
      assert groups[1..] == others && bs == bs[..k] + bs[k..];
    }
  }

  /** Two consecutive writes together carry more than the limit. */
  lemma PairExceedsLimit(rest: seq<Buffer>, limit: nat)
    requires Trimmed(rest) && rest != [] && limit <= SIZE_MAX && Bounded(rest, SIZE_MAX - limit)
    ensures var next := Trim(rest[Chosen(rest, limit)..]);
            && Bounded(next, SIZE_MAX - limit)
            && (next != [] ==> Settings(rest, limit).0 + Settings(next, limit).0 > limit)
  {
    var k := Chosen(rest, limit);
    var next := Trim(rest[k..]);
    NextRest(rest, limit);
    CoalesceTakesLongestPrefix(rest, limit);
    if next != [] {
      WritesFirstBuffer(next, limit);
      WritesFirstBuffer(rest, limit);
      if |rest[0]| < limit {
        TotalStep(rest, k);
        assert Total(rest[..k + 1]) > limit;
        assert next == rest[k..];
      }
    }
  }

  lemma WritesFirstBuffer(rest: seq<Buffer>, limit: nat)
    requires rest != [] && limit <= SIZE_MAX && Bounded(rest, SIZE_MAX - limit)
    ensures Settings(rest, limit).0 >= |rest[0]|
  {
    CoalesceTakesLongestPrefix(rest, limit);
    assert Total(rest[..1]) == |rest[0]|;
    TotalMonotone(rest, 1, Chosen(rest, limit));
  }

  /** Two turns of a run that makes two or more writes. */
  lemma {:induction false} TwoTurns(rest: seq<Buffer>, limit: nat) returns (last: seq<Buffer>)
    requires Trimmed(rest) && limit <= SIZE_MAX && Bounded(rest, SIZE_MAX - limit)
    requires Writes(rest, limit) >= 2
    ensures Trimmed(last) && |last| < |rest| && Bounded(last, SIZE_MAX - limit)
    ensures Writes(rest, limit) == Writes(last, limit) + 2
    ensures Total(last) + limit + 1 <= Total(rest)
  {
    var next := Trim(rest[Chosen(rest, limit)..]);
    NextRest(rest, limit);
    PairExceedsLimit(rest, limit);
    NextRest(next, limit);
    last := Trim(next[Chosen(next, limit)..]);
  }

  lemma {:induction false} PairsFitTotal(rest: seq<Buffer>, limit: nat)
    requires Trimmed(rest) && limit <= SIZE_MAX && Bounded(rest, SIZE_MAX - limit)
    ensures (Writes(rest, limit) / 2) * (limit + 1) <= Total(rest)
    decreases |rest|
  {
    if Writes(rest, limit) < 2 {
    } else {
      var last := TwoTurns(rest, limit);
      PairsFitTotal(last, limit);
      Distribute(Writes(last, limit) / 2, limit + 1);
    }
  }

  lemma Distribute(m: nat, d: nat)
    ensures (m + 1) * d == m * d + d
  {
  }

  lemma QuotientBound(n: nat, d: nat, t: nat)
    requires d > 0 && n * d <= t
    ensures n <= t / d
  {
    var q := t / d;
    assert t == q * d + t % d;
    assert (n - q) * d < d;
    assert n - q >= 1 ==> (n - q) * d >= d;
  }

  /** Sending `t` bytes in writes that are taken whole costs at most `2 * (t / (limit + 1)) + 1` calls. */
  lemma {:induction false} CallCountBound(bs: seq<Buffer>, env: seq<Reply>, i: nat, limit: nat)
    requires limit <= SIZE_MAX && Bounded(bs, SIZE_MAX - limit) && TakesAll(env)
    ensures Bounded(Trim(bs), SIZE_MAX - limit)
    ensures |Drain(Trim(bs), env, i, limit).offers| <= 2 * (Total(bs) / (limit + 1)) + 1
  {
    TrimKeepsStream(bs);
    RunMakesWrites(Trim(bs), env, i, limit);
    PairsFitTotal(Trim(bs), limit);
    QuotientBound(Writes(Trim(bs), limit) / 2, limit + 1, Total(bs));
  }
}
