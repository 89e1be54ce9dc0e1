/**
 The coalesce settings of a flat stream: how many bytes of a buffer sequence go into one write, and
 whether they must first be copied together.
 */
module Coalescing {
  import opened Buffers

  const SIZE_MAX: nat := 0xFFFF_FFFF_FFFF_FFFF

  /** Largest buffer size that is flattened: 16 KiB. */
  const COALESCE_LIMIT: nat := 16 * 1024

  /** Addition of two 64-bit sizes, which wraps around. */
  function Add(a: nat, b: nat): nat {
    (a + b) % (SIZE_MAX + 1)
  }

  lemma AddWraps(a: nat, b: nat)
    requires a <= SIZE_MAX && b <= SIZE_MAX
    ensures Add(a, b) == if a + b <= SIZE_MAX then a + b else a + b - (SIZE_MAX + 1)
  {
  }

  /** The scan over the buffers after the first, from position `it`: the byte count collected and
      the position of the last buffer taken. */
  function ScanFrom(bs: seq<Buffer>, limit: nat, it: nat, first: nat, prev: nat): (nat, nat)
    requires it <= |bs|
    decreases |bs| - it
  {
    if it == |bs| || Add(first, |bs[it]|) > limit then (first, prev)
    else ScanFrom(bs, limit, it + 1, Add(first, |bs[it]|), it)
  }

  /** Bytes to write, and whether to flatten them. */
  function Settings(bs: seq<Buffer>, limit: nat): (nat, bool) {
    if bs == [] then (0, false)
    else if |bs[0]| >= limit then (|bs[0]|, false)
    else var (first, prev) := ScanFrom(bs, limit, 1, |bs[0]|, 0); (first, prev != 0)
  }

  method Coalesce(buffers: seq<Buffer>, limit: nat) returns (first: nat, flatten: bool)
    ensures (first, flatten) == Settings(buffers, limit)
  {
    first, flatten := 0, false;
    if |buffers| != 0 {
      first := |buffers[0]|;
      if first < limit {
        var it, prev := 1, 0;
        while it != |buffers|
          invariant 1 <= it <= |buffers|
          invariant ScanFrom(buffers, limit, it, first, prev) == ScanFrom(buffers, limit, 1, |buffers[0]|, 0)
          decreases |buffers| - it
        {
          var n := |buffers[it]|;
          if Add(first, n) > limit {
            break;
          }
          first := Add(first, n);
          prev := it;
          it := it + 1;
        }
        flatten := prev != 0;
      }
    }
  }

  /** `k` buffers fit under the limit, and no longer prefix does. */
  predicate LongestFit(bs: seq<Buffer>, limit: nat, k: nat) {
    1 <= k <= |bs| && forall j :: 0 <= j <= |bs| ==> (Total(bs[..j]) <= limit <==> j <= k)
  }

  /** The length of the longest prefix totalling at most the limit, searched from `k` buffers on. */
  function Grow(bs: seq<Buffer>, limit: nat, k: nat): (r: nat)
    requires 1 <= k <= |bs| && Total(bs[..k]) <= limit
    ensures k <= r <= |bs|
    decreases |bs| - k
  {
    if k < |bs| && Total(bs[..k + 1]) <= limit then Grow(bs, limit, k + 1) else k
  }

  lemma {:induction false} GrowIsLongest(bs: seq<Buffer>, limit: nat, k: nat)
    requires 1 <= k <= |bs| && Total(bs[..k]) <= limit
    ensures LongestFit(bs, limit, Grow(bs, limit, k))
    decreases |bs| - k
  {
    if k < |bs| && Total(bs[..k + 1]) <= limit {
      GrowIsLongest(bs, limit, k + 1);
    } else {
      forall j | 0 <= j <= |bs| ensures Total(bs[..j]) <= limit <==> j <= k {
        if j <= k {
          TotalMonotone(bs, j, k);
        } else {
          TotalMonotone(bs, k + 1, j);
        }
      }
    }
  }

  /** How many buffers one write takes, counted without wrap-around. */
  function Chosen(bs: seq<Buffer>, limit: nat): (k: nat)
    requires bs != []
    ensures 1 <= k <= |bs|
  {
    if |bs[0]| >= limit then 1
    else assert Total(bs[..1]) == |bs[0]|; Grow(bs, limit, 1)
  }

  /** The one addition that can exceed the limit, the one that stops the scan after `k` buffers, is
      exact in 64 bits. */
  predicate NoWrap(bs: seq<Buffer>, k: nat)
    requires k <= |bs|
  {
    k < |bs| ==> Total(bs[..k]) + |bs[k]| <= SIZE_MAX
  }

  lemma {:induction false} ScanBounds(bs: seq<Buffer>, limit: nat, it: nat, first: nat, prev: nat)
    requires prev < it <= |bs| && first <= limit
    ensures var (f, p) := ScanFrom(bs, limit, it, first, prev);
            && prev <= p < |bs|
            && f <= limit
            && f <= first + Total(bs[it..])
            && (p == prev ==> f == first)
    decreases |bs| - it
  {
    if it == |bs| || Add(first, |bs[it]|) > limit {
    } else {
      assert bs[it..][1..] == bs[it + 1..];
      ScanBounds(bs, limit, it + 1, Add(first, |bs[it]|), it);
    }
  }

  lemma {:induction false} ScanGrows(bs: seq<Buffer>, limit: nat, k: nat)
    requires 1 <= k <= |bs| && Total(bs[..k]) <= limit <= SIZE_MAX && Bounded(bs, SIZE_MAX)
    ensures var g := Grow(bs, limit, k);
            ScanFrom(bs, limit, k, Total(bs[..k]), k - 1) == (Total(bs[..g]), g - 1) <==> NoWrap(bs, g)
    decreases |bs| - k
  {
    if k == |bs| {
    } else {
      hide Total;
      hide Add;
      var first := Total(bs[..k]);
      TotalStep(bs, k);
      AddWraps(first, |bs[k]|);
      if first + |bs[k]| > SIZE_MAX {
        // the true sum is over the limit, but the wrapped one is not: the scan runs on
        assert Add(first, |bs[k]|) == first + |bs[k]| - (SIZE_MAX + 1) <= limit;
        ScanBounds(bs, limit, k + 1, Add(first, |bs[k]|), k);
      } else if first + |bs[k]| <= limit {
        ScanGrows(bs, limit, k + 1);
      }
    }
  }

  /** What `coalesce` picks. With a first buffer under the limit it takes the longest prefix that
      totals at most the limit, and asks for flattening exactly when that is two or more buffers. */
  lemma CoalesceTakesLongestPrefix(bs: seq<Buffer>, limit: nat)
    requires bs != [] && limit <= SIZE_MAX && Bounded(bs, SIZE_MAX - limit)
    ensures var k := Chosen(bs, limit);
            && Settings(bs, limit) == (Total(bs[..k]), k >= 2)
            && (|bs[0]| < limit ==> LongestFit(bs, limit, k))
            && (|bs[0]| >= limit ==> k == 1)
  {
    assert Total(bs[..1]) == |bs[0]|;
    if |bs[0]| < limit {
      GrowIsLongest(bs, limit, 1);
      ScanGrows(bs, limit, 1);
    }
  }

  /** The 64-bit scan selects the buffers that exact arithmetic would select if and only if the
      addition that stops it does not wrap. */
  lemma CoalesceExactIffNoWrap(bs: seq<Buffer>, limit: nat)
    requires bs != [] && |bs[0]| < limit <= SIZE_MAX && Bounded(bs, SIZE_MAX)
    ensures var k := Chosen(bs, limit);
            ScanFrom(bs, limit, 1, |bs[0]|, 0) == (Total(bs[..k]), k - 1) <==> NoWrap(bs, k)
  {
    assert Total(bs[..1]) == |bs[0]|;
    ScanGrows(bs, limit, 1);
  }

  /** Without any bound on the sizes: a write never carries more than there is, a flattened one never
      more than the limit, and one that is not flattened is exactly the first buffer. */
  lemma SettingsBounds(bs: seq<Buffer>, limit: nat)
    ensures var (first, flatten) := Settings(bs, limit);
            && first <= Total(bs)
            && (flatten ==> first <= limit && |bs| >= 2)
            && (!flatten && bs != [] ==> first == |bs[0]|)
  {
    if bs != [] && |bs[0]| < limit {
      ScanBounds(bs, limit, 1, |bs[0]|, 0);
    }
  }

  /** How many buffers the 64-bit scan takes, from `k` on: it goes on as long as the sizes, added up and
      wrapped around, stay within the limit. */
  function WrappedCount(bs: seq<Buffer>, limit: nat, k: nat): (c: nat)
    requires 1 <= k <= |bs|
    ensures k <= c <= |bs|
    ensures forall j :: k < j <= c ==> Total(bs[..j]) % (SIZE_MAX + 1) <= limit
    ensures c < |bs| ==> Total(bs[..c + 1]) % (SIZE_MAX + 1) > limit
    decreases |bs| - k
  {
    if k < |bs| && Total(bs[..k + 1]) % (SIZE_MAX + 1) <= limit then WrappedCount(bs, limit, k + 1) else k
  }

  lemma {:induction false} ScanWraps(bs: seq<Buffer>, limit: nat, k: nat)
    requires 1 <= k <= |bs|
    ensures var c := WrappedCount(bs, limit, k);
            ScanFrom(bs, limit, k, Total(bs[..k]) % (SIZE_MAX + 1), k - 1) == (Total(bs[..c]) % (SIZE_MAX + 1), c - 1)
    decreases |bs| - k
  {
    if k == |bs| {
    } else {
      hide Total;
      TotalStep(bs, k);
      assert Add(Total(bs[..k]) % (SIZE_MAX + 1), |bs[k]|) == Total(bs[..k + 1]) % (SIZE_MAX + 1);
      hide Add;
      if Total(bs[..k + 1]) % (SIZE_MAX + 1) <= limit {
        ScanWraps(bs, limit, k + 1);
      }
    }
  }

  /** The settings for any sizes: with a first buffer under the limit, the bytes are those of the buffers
      taken, wrapped around, and the flag says whether these are two or more. */
  lemma SettingsWrap(bs: seq<Buffer>, limit: nat)
    requires bs != [] && |bs[0]| < limit <= SIZE_MAX
    ensures var c := WrappedCount(bs, limit, 1);
            Settings(bs, limit) == (Total(bs[..c]) % (SIZE_MAX + 1), c >= 2)
  {
    assert Total(bs[..1]) == |bs[0]|;
    ScanWraps(bs, limit, 1);
  }

  /** For any sizes, when a write of no bytes is offered although bytes are left: a first buffer under the
      limit with buffers taken whose sizes add up to a multiple of the machine's word, or an empty first
      buffer if the limit is 0. If no sum can wrap around, this comes down to an empty first buffer and a
      first one that is not empty and exceeds the limit. */
  lemma {:induction false} StallsExactly(bs: seq<Buffer>, limit: nat)
    requires limit <= SIZE_MAX && Total(bs) > 0
    ensures Settings(bs, limit).0 == 0 <==>
              if |bs[0]| < limit then Total(bs[..WrappedCount(bs, limit, 1)]) % (SIZE_MAX + 1) == 0 else bs[0] == []
    ensures Trim(bs) != []
    ensures Bounded(bs, SIZE_MAX - limit) ==>
              (Settings(bs, limit).0 == 0 <==> bs[0] == [] && |Trim(bs)[0]| > limit)
  {
    TrimKeepsStream(bs);
    if |bs[0]| < limit {
      SettingsWrap(bs, limit);
    }
    if Bounded(bs, SIZE_MAX - limit) {
      StallsOnLargeAfterEmpty(bs, limit);
    }
  }

  lemma {:induction false} StallsOnLargeAfterEmpty(bs: seq<Buffer>, limit: nat)
    requires limit <= SIZE_MAX && Bounded(bs, SIZE_MAX - limit)
    requires Total(bs) > 0
    ensures Trim(bs) != []
    ensures Settings(bs, limit).0 == 0 <==> bs[0] == [] && |Trim(bs)[0]| > limit
  {
    TrimKeepsStream(bs);
    CoalesceTakesLongestPrefix(bs, limit);
    if bs[0] == [] {
      var k, t := Chosen(bs, limit), |bs| - |Trim(bs)|;
      EmptyBefore(bs);
      TotalStep(bs, t);
      if t < k {
        TotalMonotone(bs, t + 1, k);
      } else {
        TotalMonotone(bs, k, t);
      }
    } else {
      TotalMonotone(bs, 1, Chosen(bs, limit));
      assert Total(bs[..1]) == |bs[0]|;
    }
  }

  lemma {:induction false} EmptyBefore(bs: seq<Buffer>)
    ensures |Trim(bs)| <= |bs| && Total(bs[..|bs| - |Trim(bs)|]) == 0
    ensures Trim(bs) == bs[|bs| - |Trim(bs)|..]
  {
    TrimKeepsStream(bs);
    var t := |bs| - |Trim(bs)|;
    assert Trim(bs) == bs[t..];
    SplitAt(bs, t);
  }

  // Inputs at which natural claims about the settings fail.

  /** An empty buffer and one of 16 KiB and a byte: nothing is offered although bytes are left. */
  lemma StallInput()
    ensures var bs := [[], Zeros(COALESCE_LIMIT + 1)];
            Total(bs) > 0 && Settings(bs, COALESCE_LIMIT) == (0, false)
  {
    var bs: seq<Buffer> := [[], Zeros(COALESCE_LIMIT + 1)];
    assert Total(bs) == |bs[0]| + Total(bs[1..]);
    AddWraps(0, COALESCE_LIMIT + 1);
  }

  /** One byte and a buffer of the largest 64-bit size: the sum wraps around to zero, the scan takes both
      where exact arithmetic takes one, and nothing is offered, although the first buffer is not empty. */
  lemma WrapInput(limit: nat)
    requires 1 < limit <= SIZE_MAX
    ensures var bs := [Zeros(1), Zeros(SIZE_MAX)];
            && Settings(bs, limit) == (0, true)
            && ScanFrom(bs, limit, 1, |bs[0]|, 0) != (Total(bs[..Chosen(bs, limit)]), Chosen(bs, limit) - 1)
            && !NoWrap(bs, Chosen(bs, limit))
  {
    var bs := [Zeros(1), Zeros(SIZE_MAX)];
    AddWraps(1, SIZE_MAX);
    assert ScanFrom(bs, limit, 1, 1, 0) == ScanFrom(bs, limit, 2, 0, 1) == (0, 1);
    assert Total(bs[..1]) == 1;
    TotalStep(bs, 1);
  }

  /** A write is flattened exactly when there are two buffers or more and the first two fit together. */
  lemma FlattensExactly(bs: seq<Buffer>, limit: nat)
    requires limit <= SIZE_MAX
    ensures Settings(bs, limit).1 <==> |bs| >= 2 && |bs[0]| < limit && Add(|bs[0]|, |bs[1]|) <= limit
    ensures Bounded(bs, SIZE_MAX - limit) ==>
              (Settings(bs, limit).1 <==> |bs| >= 2 && |bs[0]| < limit && |bs[0]| + |bs[1]| <= limit)
  {
    if |bs| >= 2 && |bs[0]| < limit && Add(|bs[0]|, |bs[1]|) <= limit {
      ScanBounds(bs, limit, 2, Add(|bs[0]|, |bs[1]|), 1);
    }
    if |bs| >= 2 && |bs[0]| < limit && Bounded(bs, SIZE_MAX - limit) {
      AddWraps(|bs[0]|, |bs[1]|);
    }
  }

  /** The rule of the class comment: more than one buffer, and a total below the limit. */
  predicate CommentFlattens(bs: seq<Buffer>, limit: nat) {
    |bs| > 1 && Total(bs) < limit
  }

  /** Code and comment disagree exactly when the code flattens a prefix of a sequence whose total is not
      below the limit. */
  lemma CommentDisagreesExactly(bs: seq<Buffer>, limit: nat)
    requires limit <= SIZE_MAX
    ensures Settings(bs, limit).1 != CommentFlattens(bs, limit) <==>
              |bs| >= 2 && |bs[0]| < limit && Add(|bs[0]|, |bs[1]|) <= limit && Total(bs) >= limit
  {
    FlattensExactly(bs, limit);
    if |bs| >= 2 {
      assert bs[1..][0] == bs[1] && Total(bs) == |bs[0]| + (|bs[1]| + Total(bs[1..][1..]));
      if Total(bs) < limit {
        AddWraps(|bs[0]|, |bs[1]|);
      }
    }
  }

  /** Three buffers of which the first two are flattened although the third alone exceeds the limit. */
  lemma CommentInput()
    ensures var bs := [Zeros(1), Zeros(1), Zeros(COALESCE_LIMIT + 1)];
            Settings(bs, COALESCE_LIMIT) == (2, true) && !CommentFlattens(bs, COALESCE_LIMIT)
  {
    var bs := [Zeros(1), Zeros(1), Zeros(COALESCE_LIMIT + 1)];
    AddWraps(1, 1);
    AddWraps(2, COALESCE_LIMIT + 1);
    assert ScanFrom(bs, COALESCE_LIMIT, 1, 1, 0) == ScanFrom(bs, COALESCE_LIMIT, 2, 2, 1) == (2, 1);
    assert bs[1..][1..] == [bs[2]];
    assert Total(bs) == |bs[0]| + (|bs[1]| + Total([bs[2]]));
  }

  /** Two buffers of 8 KiB are offered as one; with one byte more the first is offered alone. */
  lemma LimitIs16384(last: nat)
    requires last == 8192 || last == 8193
    ensures Settings([Zeros(8192), Zeros(last)], COALESCE_LIMIT)
         == if last == 8192 then (16384, true) else (8192, false)
  {
    var bs := [Zeros(8192), Zeros(last)];
    AddWraps(8192, last);
    assert last == 8192 ==> ScanFrom(bs, COALESCE_LIMIT, 2, 16384, 1) == (16384, 1);
    assert ScanFrom(bs, COALESCE_LIMIT, 1, 8192, 0) == if last == 8192 then (16384, 1) else (8192, 0);
  }
}
