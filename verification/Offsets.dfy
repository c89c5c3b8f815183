/**
 The clock offsets between processes (init_timer_offsets in src/mpi-critical.cpp), as rank 0
 computes them from ping-pong samples.
 */
module Offsets {

  const NTIMES := 19

  /** Rank 0's clock when it sends and when the answer arrives, and the answering rank's clock in between. */
  datatype Ping = Ping(sent: real, remote: real, received: real)

  function Sample(p: Ping): real {
    p.remote - (p.sent + p.received) / 2.0
  }

  /** The remote clock is `offset` ahead of rank 0's, and was read while the message was away. */
  ghost predicate Honest(p: Ping, offset: real) {
    p.sent <= p.remote - offset <= p.received
  }

  predicate Near(x: real, y: real, eps: real) {
    y - eps <= x <= y + eps
  }

  /** A sample is off by at most half of its round trip. */
  lemma SampleError(p: Ping, offset: real)
    requires Honest(p, offset)
    ensures Near(Sample(p), offset, (p.received - p.sent) / 2.0)
  {
  }

  // ---------------------------------------------------------------------------
  // The middle of the sorted samples
  // ---------------------------------------------------------------------------

  predicate IsSorted(s: seq<real>) {
    forall i, j :: 0 <= i < j < |s| ==> s[i] <= s[j]
  }

  function Insert(s: seq<real>, x: real): seq<real> {
    if s == [] || s[|s| - 1] <= x then s + [x] else Insert(s[..|s| - 1], x) + [s[|s| - 1]]
  }

  /** The library's sort. */
  function Sorted(s: seq<real>): seq<real> {
    if s == [] then [] else Insert(Sorted(s[..|s| - 1]), s[|s| - 1])
  }

  lemma {:induction false} InsertKeeps(s: seq<real>, x: real)
    ensures multiset(Insert(s, x)) == multiset(s) + multiset{x} && |Insert(s, x)| == |s| + 1
  {
    if s != [] && s[|s| - 1] > x {
      InsertKeeps(s[..|s| - 1], x);
      assert s == s[..|s| - 1] + [s[|s| - 1]];
    }
  }

  lemma {:induction false} InsertSorts(s: seq<real>, x: real)
    requires IsSorted(s)
    ensures IsSorted(Insert(s, x)) && forall y :: y in Insert(s, x) ==> y in s || y == x
  {
    if s != [] && s[|s| - 1] > x {
      var rest := s[..|s| - 1];
      InsertSorts(rest, x);
      forall i | 0 <= i < |Insert(rest, x)|
        ensures Insert(rest, x)[i] <= s[|s| - 1]
      {
        assert Insert(rest, x)[i] in Insert(rest, x);
      }
    }
  }

  lemma {:induction false} SortedSorts(s: seq<real>)
    ensures IsSorted(Sorted(s)) && multiset(Sorted(s)) == multiset(s) && |Sorted(s)| == |s|
  {
    if s != [] {
      SortedSorts(s[..|s| - 1]);
      InsertSorts(Sorted(s[..|s| - 1]), s[|s| - 1]);
      InsertKeeps(Sorted(s[..|s| - 1]), s[|s| - 1]);
      assert s == s[..|s| - 1] + [s[|s| - 1]];
    }
  }

  /** How many of the samples are near `y`. */
  function CountNear(s: seq<real>, y: real, eps: real): (n: nat)
    ensures n <= |s|
  {
    if s == [] then 0 else CountNear(s[..|s| - 1], y, eps) + if Near(s[|s| - 1], y, eps) then 1 else 0
  }

  lemma {:induction false} CountSplits(s: seq<real>, t: seq<real>, y: real, eps: real)
    ensures CountNear(s + t, y, eps) == CountNear(s, y, eps) + CountNear(t, y, eps)
  {
    if t == [] {
      assert s + t == s;
    } else {
      CountSplits(s, t[..|t| - 1], y, eps);
      assert (s + t)[..|s + t| - 1] == s + t[..|t| - 1];
    }
  }

  lemma {:induction false} NoneNear(s: seq<real>, y: real, eps: real)
    requires forall i :: 0 <= i < |s| ==> !Near(s[i], y, eps)
    ensures CountNear(s, y, eps) == 0
  {
    if s != [] {
      NoneNear(s[..|s| - 1], y, eps);
    }
  }

  lemma Without(t: seq<real>, i: nat, y: real, eps: real)
    requires i < |t|
    ensures multiset(t) == multiset(t[..i] + t[i + 1..]) + multiset{t[i]}
    ensures CountNear(t, y, eps) == CountNear(t[..i] + t[i + 1..], y, eps) + if Near(t[i], y, eps) then 1 else 0
  {
    assert t == t[..i] + [t[i]] + t[i + 1..];
    CountSplits(t[..i] + [t[i]], t[i + 1..], y, eps);
    CountSplits(t[..i], [t[i]], y, eps);
    CountSplits(t[..i], t[i + 1..], y, eps);
  }

  lemma {:induction false} CountInAnyOrder(s: seq<real>, t: seq<real>, y: real, eps: real)
    requires multiset(s) == multiset(t)
    ensures CountNear(s, y, eps) == CountNear(t, y, eps)
    decreases |s|
  {
    assert |multiset(s)| == |multiset(t)|;
    if s != [] {
      var x, rest := s[|s| - 1], s[..|s| - 1];
      assert s == rest + [x];
      assert x in multiset(t);
      var i :| 0 <= i < |t| && t[i] == x;
      Without(t, i, y, eps);
      assert multiset(rest) == multiset(s) - multiset{x};
      assert multiset(t[..i] + t[i + 1..]) == multiset(t) - multiset{x};
      CountInAnyOrder(rest, t[..i] + t[i + 1..], y, eps);
    }
  }

  lemma TooHigh(t: seq<real>, m: nat, y: real, eps: real)
    requires IsSorted(t) && m < |t| && t[m] > y + eps
    ensures CountNear(t, y, eps) <= m
  {
    assert t == t[..m] + t[m..];
    CountSplits(t[..m], t[m..], y, eps);
    NoneNear(t[m..], y, eps);
  }

  lemma TooLow(t: seq<real>, m: nat, y: real, eps: real)
    requires IsSorted(t) && m < |t| && t[m] < y - eps
    ensures CountNear(t, y, eps) <= |t| - m - 1
  {
    assert t == t[..m + 1] + t[m + 1..];
    CountSplits(t[..m + 1], t[m + 1..], y, eps);
    NoneNear(t[..m + 1], y, eps);
  }

  function Middle(s: seq<real>): real
    requires s != []
  {
    SortedSorts(s);
    Sorted(s)[|s| / 2]
  }

  /** If more than half of the samples are near `y`, so is the middle one. */
  lemma MiddleIsNear(s: seq<real>, y: real, eps: real)
    requires CountNear(s, y, eps) > |s| / 2
    ensures s != [] && Near(Middle(s), y, eps)
  {
    var t, m := Sorted(s), |s| / 2;
    SortedSorts(s);
    CountInAnyOrder(s, t, y, eps);
    if t[m] > y + eps {
      TooHigh(t, m, y, eps);
    } else if t[m] < y - eps {
      TooLow(t, m, y, eps);
    }
  }

  // ---------------------------------------------------------------------------
  // All ranks
  // ---------------------------------------------------------------------------

  function Row(pings: seq<Ping>): seq<real> {
    seq(|pings|, i requires 0 <= i < |pings| => Sample(pings[i]))
  }

  /** The position of a rank's sample in the table. */
  function At(rank: nat, i: nat): nat {
    rank * NTIMES + i
  }

  lemma OnePosition(rank: nat, i: nat, rank': nat, i': nat)
    requires i < NTIMES && i' < NTIMES && At(rank, i) == At(rank', i')
    ensures rank == rank' && i == i'
  {
  }

  /** The first `i` samples of all ranks, and sample `i` of the ranks before `j`, are in the table; rank 0 has none. */
  ghost predicate Sampled(table: seq<real>, pings: seq<seq<Ping>>, i: nat, j: nat) {
    && |table| == |pings| * NTIMES && (forall l :: 0 <= l < |pings| ==> |pings[l]| == NTIMES)
    && forall l: nat, k: nat :: l < |pings| && k < NTIMES ==>
         (At(l, k) < |table|
         && table[At(l, k)] == if 0 < l && (k < i || (k == i && l < j)) then Sample(pings[l][k]) else 0.0)
  }

  lemma SampleOne(table: seq<real>, pings: seq<seq<Ping>>, i: nat, j: nat)
    requires Sampled(table, pings, i, j) && i < NTIMES && 0 < j < |pings|
    ensures At(j, i) < |table| && Sampled(table[At(j, i) := Sample(pings[j][i])], pings, i, j + 1)
  {
    var after := table[At(j, i) := Sample(pings[j][i])];
    forall l: nat, k: nat | l < |pings| && k < NTIMES
      ensures after[At(l, k)] == if 0 < l && (k < i || (k == i && l < j + 1)) then Sample(pings[l][k]) else 0.0
    {
      if At(l, k) == At(j, i) {
        OnePosition(l, k, j, i);
      }
    }
  }

  /** The loops of rank 0 that fill the table; its own row stays zero. */
  method FillTable(pings: seq<seq<Ping>>) returns (allTimes: array<real>)
    requires |pings| > 0 && forall j :: 0 <= j < |pings| ==> |pings[j]| == NTIMES
    ensures fresh(allTimes) && Sampled(allTimes[..], pings, NTIMES, 1)
  {
    var size := |pings|;
    allTimes := new real[size * NTIMES](_ => 0.0);
    var i := 0;
    while i < NTIMES
      invariant 0 <= i <= NTIMES && Sampled(allTimes[..], pings, i, 1)
    {
      var j := 1;
      while j < size
        invariant 1 <= j <= size && Sampled(allTimes[..], pings, i, j)
      {
        SampleOne(allTimes[..], pings, i, j);
        var p := pings[j][i];
        allTimes[At(j, i)] := p.remote - (p.sent + p.received) / 2.0;
        j := j + 1;
      }
      i := i + 1;
    }
  }

  lemma RowOfTable(table: seq<real>, pings: seq<seq<Ping>>, j: nat)
    requires Sampled(table, pings, NTIMES, 1) && j < |pings|
    ensures At(j, NTIMES) <= |table|
    ensures table[At(j, 0)..At(j, NTIMES)] == if j == 0 then seq(NTIMES, _ => 0.0) else Row(pings[j])
  {
    assert At(j, NTIMES - 1) < |table|;
    var row := table[At(j, 0)..At(j, NTIMES)];
    forall k: nat | k < NTIMES
      ensures row[k] == if j == 0 then 0.0 else Sample(pings[j][k])
    {
      assert row[k] == table[At(j, k)];
    }
  }

  /** What rank 0 reports for rank `j`. */
  function Offset(pings: seq<seq<Ping>>, j: nat): real
    requires j < |pings| && |pings[j]| == NTIMES
  {
    if j == 0 then 0.0 else Middle(Row(pings[j]))
  }

  lemma OffsetOfRow(table: seq<real>, pings: seq<seq<Ping>>, j: nat)
    requires Sampled(table, pings, NTIMES, 1) && j < |pings|
    ensures At(j, NTIMES) <= |table| && Middle(table[At(j, 0)..At(j, NTIMES)]) == Offset(pings, j)
  {
    RowOfTable(table, pings, j);
    if j == 0 {
      MiddleOfZeros(table[At(j, 0)..At(j, NTIMES)]);
    }
  }

  lemma MiddleOfZeros(s: seq<real>)
    requires s != [] && forall i :: 0 <= i < |s| ==> s[i] == 0.0
    ensures Middle(s) == 0.0
  {
    SortedSorts(s);
    assert Middle(s) in multiset(Sorted(s));
    assert Middle(s) in s;
  }

  /** The offset of a rank is the middle of its sorted samples; rank 0's is zero. */
  method TimerOffsets(pings: seq<seq<Ping>>) returns (offsets: array<real>)
    requires |pings| > 0 && forall j :: 0 <= j < |pings| ==> |pings[j]| == NTIMES
    ensures offsets.Length == |pings| && offsets[0] == 0.0
    ensures forall j :: 0 < j < |pings| ==> offsets[j] == Middle(Row(pings[j]))
  {
    var allTimes := FillTable(pings);
    offsets := new real[|pings|](_ => 0.0);
    var j := 0;
    while j < |pings|
      modifies offsets
      invariant 0 <= j <= |pings|
      invariant forall k :: 0 <= k < j ==> offsets[k] == Offset(pings, k)
    {
      OffsetOfRow(allTimes[..], pings, j);
      offsets[j] := Middle(allTimes[At(j, 0)..At(j, NTIMES)]);
      j := j + 1;
    }
  }

  /** How many of the round trips took at most `time`. */
  function CountShort(pings: seq<Ping>, time: real): nat {
    if pings == [] then 0
    else CountShort(pings[..|pings| - 1], time) +
         if pings[|pings| - 1].received - pings[|pings| - 1].sent <= time then 1 else 0
  }

  lemma {:induction false} ShortIsNear(pings: seq<Ping>, offset: real, eps: real)
    requires forall i :: 0 <= i < |pings| ==> Honest(pings[i], offset)
    ensures CountShort(pings, 2.0 * eps) <= CountNear(Row(pings), offset, eps)
  {
    if pings != [] {
      var n := |pings| - 1;
      ShortIsNear(pings[..n], offset, eps);
      assert Row(pings)[..n] == Row(pings[..n]);
      SampleError(pings[n], offset);
    }
  }

  /** If at least 10 of the 19 round trips took at most `2 * eps`, the offset is within `eps` of the true one. */
  lemma OffsetIsNear(pings: seq<Ping>, offset: real, eps: real)
    requires |pings| == NTIMES && forall i :: 0 <= i < NTIMES ==> Honest(pings[i], offset)
    requires CountShort(pings, 2.0 * eps) >= 10
    ensures Near(Middle(Row(pings)), offset, eps)
  {
    ShortIsNear(pings, offset, eps);
    MiddleIsNear(Row(pings), offset, eps);
  }
}
