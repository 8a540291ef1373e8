/** The two loops over one file's byte space: rewriting it range by range, and mapping its extents. */
module FileRanges {
  import opened Common

  // ---------------------------------------------------------------- rewriting range by range

  const RANGE: nat := 16 * 1024 * 1024

  datatype Call = Call(start: nat, size: nat)

  /** How many ranges a file of this length has, and the `k`-th of them. */
  function RangeCount(length: nat): nat {
    DivCeil(length, RANGE)
  }

  function RangeAt(length: nat, k: nat): Call {
    Call(k * RANGE, Min(RANGE, SaturatingSub(length, k * RANGE)))
  }

  lemma RangeBounds(length: nat, k: nat)
    ensures k < RangeCount(length) <==> k * RANGE < length
  {
  }

  /** Ranges in order, without gap or overlap, from 0 up to `end`, none over 16 MiB. */
  predicate Tiles(calls: seq<Call>, end: nat) {
    && (forall k | 0 <= k < |calls| :: 0 < calls[k].size <= RANGE)
    && (forall k | 0 <= k < |calls| :: calls[k].start == if k == 0 then 0 else calls[k - 1].start + calls[k - 1].size)
    && end == if calls == [] then 0 else calls[|calls| - 1].start + calls[|calls| - 1].size
  }

  /** What must go right for the `k`-th range: the gate before it admits, and its request succeeds. */
  predicate RangeDone(length: nat, admitted: nat -> bool, op: Call -> Result<i32>, k: nat) {
    admitted(k) && op(RangeAt(length, k)).Ok?
  }

  /** `level` is the least level of the requests, or the source's start value when that is no more. */
  ghost predicate LeastLevel(calls: seq<Call>, op: Call -> Result<i32>, level: int) {
    && (forall k | 0 <= k < |calls| :: op(calls[k]).Ok? && level <= op(calls[k]).value)
    && (level == I32_MAX || exists k | 0 <= k < |calls| :: op(calls[k]) == Ok(level))
    && level <= I32_MAX
  }

  /** The requests go up to the first gate that does not admit, or the first request that fails. */
  predicate EndsAtFailure(length: nat, admitted: nat -> bool, op: Call -> Result<i32>, calls: seq<Call>) {
    var n := |calls|;
    && n <= RangeCount(length)
    && (forall k | 0 <= k < n :: calls[k] == RangeAt(length, k) && admitted(k))
    && (forall k | 0 <= k < n - 1 :: op(calls[k]).Ok?)
    && ((n > 0 && op(calls[n - 1]).Err?) || (n < RangeCount(length) && !admitted(n)))
  }

  /** How a rewrite ends, and with which requests. */
  ghost predicate Rewritten(
    length: nat, admitted: nat -> bool, op: Call -> Result<i32>, r: Result<int>, calls: seq<Call>)
  {
    && (r.Ok? <==> forall k | 0 <= k < RangeCount(length) :: RangeDone(length, admitted, op, k))
    && (r.Ok? ==>
          && Tiles(calls, length)
          && exists least :: LeastLevel(calls, op, least) && r.value == if least == I32_MAX then 0 else least)
    && (r.Err? ==> EndsAtFailure(length, admitted, op, calls))
  }

  /**
   `rewrite_ranges`: `admitted(k)` is the answer of the gate before the `k`-th range, and `op` is the
   request for one range. `calls` are the requests made. It succeeds exactly when every gate
   admits and every range is rewritten, and then the requests tile the whole file.
   */
  method RewriteRanges(length: nat, admitted: nat -> bool, op: Call -> Result<i32>)
    returns (r: Result<int>, calls: seq<Call>)
    ensures Rewritten(length, admitted, op, r, calls)
  {
    var start := 0;
    var applied := I32_MAX;
    calls := [];
    while start < length
      invariant start == Min(|calls| * RANGE, length) && |calls| <= RangeCount(length)
      invariant LeastLevel(calls, op, applied)
      invariant forall k | 0 <= k < |calls| :: RangeDone(length, admitted, op, k) && calls[k] == RangeAt(length, k)
      decreases length - start
    {
      ghost var n := |calls|;
      var call := Call(start, Min(RANGE, length - start));
      RangeBounds(length, n);
      CallIsRange(length, n, start, call);
      if !admitted(|calls|) {
        assert !RangeDone(length, admitted, op, n);
        return Err, calls;
      }
      var answer := op(call);
      LeastExtends(calls, op, applied, call);
      calls := calls + [call];
      if answer.Err? {
        assert !RangeDone(length, admitted, op, n);
        return Err, calls;
      }
      assert RangeDone(length, admitted, op, n);
      applied := Min(applied, answer.value);
      start := start + call.size;
    }
    RangeBounds(length, |calls|);
    forall k | 0 <= k < |calls| ensures k * RANGE < length {
      RangeBounds(length, k);
    }
    RangesTile(length, calls);
    assert LeastLevel(calls, op, applied);
    return Ok(if applied == I32_MAX then 0 else applied), calls;
  }

  lemma CallIsRange(length: nat, n: nat, start: nat, call: Call)
    requires start < length && start == Min(n * RANGE, length) && call == Call(start, Min(RANGE, length - start))
    ensures call == RangeAt(length, n) && call.size > 0
    ensures start + call.size == Min((n + 1) * RANGE, length) && n + 1 <= RangeCount(length)
  {
    RangeBounds(length, n);
  }

  lemma RangesTile(length: nat, calls: seq<Call>)
    requires |calls| * RANGE >= length
    requires forall k | 0 <= k < |calls| :: k * RANGE < length && calls[k] == RangeAt(length, k)
    ensures Tiles(calls, length)
  {
    forall k | 0 < k < |calls| ensures calls[k].start == calls[k - 1].start + calls[k - 1].size {
      assert calls[k - 1] == RangeAt(length, k - 1) && k * RANGE < length;
    }
  }

  lemma LeastExtends(calls: seq<Call>, op: Call -> Result<i32>, level: int, call: Call)
    requires LeastLevel(calls, op, level)
    ensures op(call).Ok? ==> LeastLevel(calls + [call], op, Min(level, op(call).value))
  {
    if op(call).Ok? {
      var more := calls + [call];
      assert more[|calls|] == call;
      if level != I32_MAX {
        var k :| 0 <= k < |calls| && op(calls[k]) == Ok(level);
        assert more[k] == calls[k];
      }
    }
  }

  predicate Within(c: Call, x: nat) {
    c.start <= x < c.start + c.size
  }

  lemma {:induction false} TileStarts(calls: seq<Call>, end: nat, j: nat, k: nat)
    requires Tiles(calls, end) && j < k < |calls|
    ensures calls[j].start + calls[j].size <= calls[k].start
    decreases k
  {
    if j < k - 1 {
      TileStarts(calls, end, j, k - 1);
    }
  }

  /** A tiling rewrites every byte of the file exactly once. */
  lemma {:induction false} EveryByteOnce(calls: seq<Call>, end: nat, x: nat)
    requires Tiles(calls, end)
    ensures x < end <==> exists k | 0 <= k < |calls| :: Within(calls[k], x)
    ensures forall j, k | 0 <= j < |calls| && 0 <= k < |calls| && Within(calls[j], x) && Within(calls[k], x) :: j == k
    decreases |calls|
  {
    forall j, k | 0 <= j < k < |calls| ensures calls[j].start + calls[j].size <= calls[k].start {
      TileStarts(calls, end, j, k);
    }
    if calls != [] {
      var last := |calls| - 1;
      assert last > 0 ==> calls[..last][last - 1] == calls[last - 1];
      assert Tiles(calls[..last], calls[last].start);
      EveryByteOnce(calls[..last], calls[last].start, x);
      if x < calls[last].start {
        var k :| 0 <= k < last && Within(calls[..last][k], x);
        assert Within(calls[k], x);
      } else if x < end {
        assert Within(calls[last], x);
      }
    }
  }

  // ---------------------------------------------------------------- mapping extents

  const FIEMAP_BATCH: nat := 128

  datatype Extent = Extent(logical: nat, length: nat, encoded: bool, last: bool) {
    function End(): nat { logical + length }
  }

  /** A file's extents: in order, apart, not empty, in 64-bit offsets, `last` on no earlier one. */
  predicate Layout(extents: seq<Extent>) {
    && (forall i | 0 <= i < |extents| :: extents[i].length > 0 && extents[i].End() <= U64_MAX)
    && (forall i, j | 0 <= i < j < |extents| :: extents[i].End() <= extents[j].logical)
    && (forall i | 0 <= i < |extents| - 1 :: !extents[i].last)
  }

  /** Bytes mapped by the first `n` extents, and those of them in encoded extents. */
  function Mapped(extents: seq<Extent>, n: nat): nat
    requires n <= |extents|
  {
    if n == 0 then 0 else Mapped(extents, n - 1) + extents[n - 1].length
  }

  function Encoded(extents: seq<Extent>, n: nat): nat
    requires n <= |extents|
  {
    if n == 0 then 0 else Encoded(extents, n - 1) + if extents[n - 1].encoded then extents[n - 1].length else 0
  }

  /** Where the first `n` extents end: the offset the next query starts from. */
  function EndOf(extents: seq<Extent>, n: nat): nat
    requires n <= |extents|
  {
    if n == 0 then 0 else extents[n - 1].End()
  }

  /** How many extents end at or before `start`, by the order of the layout. */
  function Before(extents: seq<Extent>, start: nat): (n: nat)
    ensures n <= |extents|
    ensures forall i | 0 <= i < n :: extents[i].End() <= start
    ensures n < |extents| ==> extents[n].End() > start
  {
    if extents == [] || extents[0].End() > start then 0 else 1 + Before(extents[1..], start)
  }

  /** The kernel's answer: up to `room` extents that reach past `start`. */
  function Served(extents: seq<Extent>, start: nat, room: nat): (batch: seq<Extent>) {
    var n := Before(extents, start);
    extents[n..Min(n + room, |extents|)]
  }

  lemma ServedIs(extents: seq<Extent>, seen: nat, room: nat)
    requires Layout(extents) && seen <= |extents|
    ensures var batch := Served(extents, EndOf(extents, seen), room);
            && seen + |batch| <= |extents| && batch == extents[seen..seen + |batch|]
            && (batch == [] ==> seen == |extents| || room == 0)
  {
    var n := Before(extents, EndOf(extents, seen));
    assert forall i | 0 <= i < seen :: extents[i].End() <= EndOf(extents, seen);
    assert seen < |extents| ==> extents[seen].End() > EndOf(extents, seen);
    assert n == seen;
  }

  /** The loop over one answer, which holds the extents from number `seen` on. */
  method Tally(extents: seq<Extent>, seen: nat, batch: seq<Extent>, compressed0: nat, total0: nat)
    returns (compressed: nat, total: nat, nextStart: nat, lastSeen: bool)
    requires Layout(extents) && batch != [] && seen + |batch| <= |extents| && batch == extents[seen..seen + |batch|]
    requires compressed0 == Encoded(extents, seen) <= total0 == Mapped(extents, seen) <= EndOf(extents, seen)
    ensures compressed == Encoded(extents, seen + |batch|) <= total == Mapped(extents, seen + |batch|) <= nextStart
    ensures nextStart == EndOf(extents, seen + |batch|) && (lastSeen ==> seen + |batch| == |extents|)
  {
    compressed, total, nextStart, lastSeen := compressed0, total0, EndOf(extents, seen), false;
    for i := 0 to |batch|
      invariant compressed == Encoded(extents, seen + i) <= total == Mapped(extents, seen + i) <= nextStart
      invariant nextStart == EndOf(extents, seen + i) && (lastSeen ==> seen + i == |extents|)
    {
      var extent := batch[i];
      assert extent == extents[seen + i] && EndOf(extents, seen + i) <= extent.logical;
      total := SaturatingAdd(total, extent.length);
      if extent.encoded {
        compressed := SaturatingAdd(compressed, extent.length);
      }
      nextStart := SaturatingAdd(extent.logical, extent.length);
      if extent.last {
        lastSeen := true;
      }
    }
  }

  /** `compressed_bytes_fd`; `room(q)` is how many extents the kernel chooses to fit in answer `q`. */
  method CompressedBytes(extents: seq<Extent>, room: nat -> nat) returns (compressed: nat, total: nat)
    requires Layout(extents) && forall q :: 1 <= room(q) <= FIEMAP_BATCH
    ensures compressed == Encoded(extents, |extents|) && total == Mapped(extents, |extents|)
  {
    compressed, total := 0, 0;
    var start, queries, seen := 0, 0, 0;
    while true
      invariant seen <= |extents| && start == EndOf(extents, seen)
      invariant compressed == Encoded(extents, seen) <= total == Mapped(extents, seen) <= start
      decreases |extents| - seen
    {
      var batch := Served(extents, start, room(queries));
      queries := queries + 1;
      ServedIs(extents, seen, room(queries - 1));
      if batch == [] {
        break;
      }
      var nextStart, lastSeen;
      compressed, total, nextStart, lastSeen := Tally(extents, seen, batch, compressed, total);
      assert EndOf(extents, seen + |batch|) > start;
      seen := seen + |batch|;
      if lastSeen || nextStart <= start {
        break;
      }
      start := nextStart;
    }
  }

  // ---- the sums as bytes of the file

  /** The bytes from `start` up to `end`. */
  ghost function Bytes(start: nat, end: nat): set<nat> {
    set x: nat | start <= x < end && Between(x, start, end)
  }

  predicate Between(x: nat, start: nat, end: nat) { start <= x < end }

  /** The bytes of the file in the first `n` extents, or only in the encoded ones. */
  ghost function BytesIn(extents: seq<Extent>, n: nat, encodedOnly: bool): set<nat>
    requires n <= |extents|
  {
    if n == 0 then {}
    else
      var last, before := extents[n - 1], BytesIn(extents, n - 1, encodedOnly);
      if last.encoded || !encodedOnly then before + Bytes(last.logical, last.End()) else before
  }

  lemma {:induction false} BytesCount(start: nat, end: nat)
    requires start <= end
    ensures |Bytes(start, end)| == end - start
    decreases end
  {
    if start == end {
      assert Bytes(start, end) == {};
    } else {
      BytesCount(start, end - 1);
      assert Bytes(start, end) == Bytes(start, end - 1) + {end - 1};
    }
  }

  /** The totals are numbers of bytes of the file: those that are mapped, or those in encoded extents. */
  lemma {:induction false} TotalIsBytes(extents: seq<Extent>, n: nat, encodedOnly: bool)
    requires Layout(extents) && n <= |extents|
    ensures |BytesIn(extents, n, encodedOnly)| == if encodedOnly then Encoded(extents, n) else Mapped(extents, n)
    ensures BytesIn(extents, n, encodedOnly) <= Bytes(0, EndOf(extents, n))
    decreases n
  {
    if n > 0 {
      TotalIsBytes(extents, n - 1, encodedOnly);
      var last := extents[n - 1];
      assert EndOf(extents, n - 1) <= last.logical;
      BytesCount(last.logical, last.End());
      Disjoint(EndOf(extents, n - 1), last.logical, last.End());
      assert Bytes(0, EndOf(extents, n - 1)) <= Bytes(0, last.End());
    }
  }

  lemma Disjoint(end: nat, start: nat, stop: nat)
    requires end <= start <= stop
    ensures Bytes(0, end) !! Bytes(start, stop) && Bytes(start, stop) <= Bytes(0, stop)
  {
  }
}
