/**
 Buffer sequences: the bytes a caller hands to a stream in several pieces.
 */
module Buffers {
  newtype Octet = x: int | 0 <= x < 256

  type Buffer = seq<Octet>

  /** A buffer of `n` bytes. */
  function Zeros(n: nat): (b: Buffer)
    ensures |b| == n
  {
    seq(n, _ => 0)
  }

  /** The byte stream that a buffer sequence stands for. */
  function Flatten(bs: seq<Buffer>): Buffer {
    if bs == [] then [] else bs[0] + Flatten(bs[1..])
  }

  function Total(bs: seq<Buffer>): nat {
    if bs == [] then 0 else |bs[0]| + Total(bs[1..])
  }

  lemma {:induction false} FlattenConcat(a: seq<Buffer>, b: seq<Buffer>)
    ensures Flatten(a + b) == Flatten(a) + Flatten(b)
    ensures Total(a + b) == Total(a) + Total(b)
  {
    if a == [] {
      assert a + b == b;
    } else {
      assert (a + b)[1..] == a[1..] + b;
      FlattenConcat(a[1..], b);
    }
  }

  lemma {:induction false} FlattenLength(bs: seq<Buffer>)
    ensures |Flatten(bs)| == Total(bs)
  {
    if bs == [] {
    } else {
      FlattenLength(bs[1..]);
    }
  }

  /** Cutting a buffer sequence cuts its stream and its size at the same place. */
  lemma SplitAt(bs: seq<Buffer>, k: nat)
    requires k <= |bs|
    ensures Flatten(bs) == Flatten(bs[..k]) + Flatten(bs[k..])
    ensures Total(bs) == Total(bs[..k]) + Total(bs[k..])
  {
    assert bs == bs[..k] + bs[k..];
    FlattenConcat(bs[..k], bs[k..]);
  }

  lemma TotalStep(bs: seq<Buffer>, k: nat)
    requires k < |bs|
    ensures Total(bs[..k + 1]) == Total(bs[..k]) + |bs[k]|
  {
    assert bs[..k + 1] == bs[..k] + [bs[k]];
    FlattenConcat(bs[..k], [bs[k]]);
    assert Total([bs[k]]) == |bs[k]|;
  }

  lemma TotalMonotone(bs: seq<Buffer>, i: nat, j: nat)
    requires i <= j <= |bs|
    ensures Total(bs[..i]) <= Total(bs[..j])
  {
    assert bs[..j][..i] == bs[..i];
    SplitAt(bs[..j], i);
  }

  /** The buffer sequence without its leading empty buffers. */
  function Trim(bs: seq<Buffer>): (r: seq<Buffer>)
    ensures Trimmed(r)
  {
    if bs != [] && bs[0] == [] then Trim(bs[1..]) else bs
  }

  predicate Trimmed(bs: seq<Buffer>) {
    bs == [] || bs[0] != []
  }

  predicate IsSuffix(s: seq<Buffer>, bs: seq<Buffer>) {
    |s| <= |bs| && s == bs[|bs| - |s|..]
  }

  lemma SuffixTrans(a: seq<Buffer>, b: seq<Buffer>, c: seq<Buffer>)
    requires IsSuffix(a, b) && IsSuffix(b, c)
    ensures IsSuffix(a, c)
  {
  }

  lemma {:induction false} TrimKeepsStream(bs: seq<Buffer>)
    ensures Flatten(Trim(bs)) == Flatten(bs)
    ensures Total(Trim(bs)) == Total(bs)
    ensures IsSuffix(Trim(bs), bs)
  {
    if bs == [] || bs[0] != [] {
    } else {
      TrimKeepsStream(bs[1..]);
    }
  }

  lemma {:induction false} TrimEmptyPrefix(bs: seq<Buffer>, k: nat)
    requires k <= |bs| && Total(bs[..k]) == 0
    ensures Trim(bs) == Trim(bs[k..])
  {
    if k == 0 {
    } else {
      SplitAt(bs[..k], 1);
      assert bs[..k][..1] == [bs[0]];
      assert bs[..k][1..] == bs[1..][..k - 1];
      assert bs[1..][k - 1..] == bs[k..];
      assert Total([bs[0]]) == |bs[0]|;
      TrimEmptyPrefix(bs[1..], k - 1);
    }
  }

  /** What a caller still has to send after the stream took `n` bytes: those bytes are dropped, and
      so are empty buffers that then stand in front. */
  function Consume(bs: seq<Buffer>, n: nat): (r: seq<Buffer>)
    requires n <= Total(bs)
    ensures Trimmed(r)
  {
    if n == 0 then Trim(bs)
    else if n < |bs[0]| then [bs[0][n..]] + bs[1..]
    else Consume(bs[1..], n - |bs[0]|)
  }

  lemma {:induction false} ConsumeKeepsStream(bs: seq<Buffer>, n: nat)
    requires n <= Total(bs)
    ensures Total(bs) == |Flatten(bs)|
    ensures Flatten(Consume(bs, n)) == Flatten(bs)[n..]
    ensures Total(Consume(bs, n)) == Total(bs) - n
  {
    FlattenLength(bs);
    if n == 0 {
      TrimKeepsStream(bs);
    } else if n < |bs[0]| {
      var r := Consume(bs, n);
      assert r[1..] == bs[1..];
    } else {
      ConsumeKeepsStream(bs[1..], n - |bs[0]|);
    }
  }

  lemma {:induction false} ConsumeWholeBuffers(bs: seq<Buffer>, k: nat)
    requires k <= |bs|
    ensures Total(bs[..k]) <= Total(bs)
    ensures Consume(bs, Total(bs[..k])) == Trim(bs[k..])
  {
    SplitAt(bs, k);
    if Total(bs[..k]) == 0 {
      TrimEmptyPrefix(bs, k);
    } else {
      assert bs[..k][1..] == bs[1..][..k - 1];
      assert bs[1..][k - 1..] == bs[k..];
      ConsumeWholeBuffers(bs[1..], k - 1);
      if Total(bs[..k]) < |bs[0]| { assert false; }
    }
  }

  /** No buffer is larger than `m` bytes. */
  predicate Bounded(bs: seq<Buffer>, m: int) {
    forall i :: 0 <= i < |bs| ==> |bs[i]| <= m
  }

  lemma {:induction false} ConsumeKeepsBound(bs: seq<Buffer>, n: nat, m: int)
    requires n <= Total(bs) && Bounded(bs, m)
    ensures Bounded(Consume(bs, n), m)
  {
    if n == 0 {
      TrimKeepsStream(bs);
    } else if n >= |bs[0]| {
      ConsumeKeepsBound(bs[1..], n - |bs[0]|, m);
    }
  }
}
