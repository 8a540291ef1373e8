/** Which bytes of a file the estimator and the codec benchmark read. */
module Sampling {
  import opened Common

  /** A read: `length` bytes from `start`. */
  datatype Window = Window(start: nat, length: nat) {
    function End(): nat { start + length }
  }

  predicate Inside(ws: seq<Window>, size: nat) {
    forall k | 0 <= k < |ws| :: ws[k].End() <= size
  }

  predicate Apart(ws: seq<Window>) {
    forall j, k | 0 <= j < k < |ws| :: ws[j].End() <= ws[k].start
  }

  function Total(ws: seq<Window>): nat {
    if ws == [] then 0 else Total(ws[..|ws| - 1]) + ws[|ws| - 1].length
  }

  lemma TotalAppend(ws: seq<Window>, w: Window)
    ensures Total(ws + [w]) == Total(ws) + w.length
  {
    assert (ws + [w])[..|ws|] == ws;
  }

  // ---------------------------------------------------------------- spreading samples

  /** `sample_block`. */
  function SampleBlock(index: nat, blocks: nat, samples: nat): nat {
    if samples <= 1 then SaturatingSub(blocks, 1) / 2
    else SaturatingMul(index, SaturatingSub(blocks, 1)) / (samples - 1)
  }

  /** `sample_offset`. */
  function SampleOffset(index: nat, size: nat, window: nat, samples: nat): nat {
    if samples <= 1 then SaturatingSub(size, window) / 2
    else SaturatingMul(index, SaturatingSub(size, window)) / (samples - 1)
  }

  /** The middle for one sample; else even steps from the first position to the last, short of saturation. */
  lemma EvenlySpread(index: nat, span: nat, window: nat, samples: nat)
    requires 1 <= samples && index < samples && (samples - 1) * span <= U64_MAX
    ensures var block := SampleBlock(index, span + 1, samples);
            && SampleOffset(index, span + window, window, samples) == block
            && if samples == 1 then 2 * block <= span < 2 * (block + 1)
               else (samples - 1) * block <= index * span < (samples - 1) * (block + 1)
  {
    if samples > 1 {
      MulMonotone(index, samples - 1, span);
      var x, n := index * span, samples - 1;
      assert x == n * (x / n) + x % n;
    }
  }

  lemma DivShift(x: nat, w: nat, n: nat)
    requires n > 0
    ensures (x + w * n) / n == x / n + w
  {
    var q, r := x / n, x % n;
    assert x + w * n == n * (q + w) + r;
    DivUnique(x + w * n, q + w, r, n);
  }

  lemma DivUnique(x: nat, q: nat, r: nat, n: nat)
    requires n > 0 && r < n && x == n * q + r
    ensures x / n == q
  {
    var a := x / n;
    assert x == n * a + x % n;
    assert a > q ==> n * a >= n * (q + 1);
    assert a < q ==> n * (a + 1) <= n * q;
  }

  lemma DivMonotone(x: nat, y: nat, n: nat)
    requires n > 0 && x <= y
    ensures x / n <= y / n
  {
    var a, b := x / n, y / n;
    assert x == n * a + x % n && y == n * b + y % n;
    assert a > b ==> n * a >= n * (b + 1);
  }

  lemma MulMonotone(i: nat, j: nat, x: nat)
    requires i <= j
    ensures i * x <= j * x
  {
  }

  /** Points `i * span / n` lie at least `step` apart when `n` steps fit the span, and within it. */
  lemma {:induction false} PointsApart(i: nat, j: nat, span: nat, n: nat, step: nat)
    requires n > 0 && i <= j <= n && step * n <= span
    ensures i * span / n + (j - i) * step <= j * span / n <= span
    decreases j - i
  {
    PointWithin(j, span, n);
    if i < j {
      PointsApart(i, j - 1, span, n, step);
      NextPoint(j - 1, span, n, step);
      assert (j - i) * step == (j - 1 - i) * step + step;
    }
  }

  lemma NextPoint(j: nat, span: nat, n: nat, step: nat)
    requires n > 0 && step * n <= span
    ensures j * span / n + step <= (j + 1) * span / n
  {
    assert (j + 1) * span == j * span + span;
    DivShift(j * span, step, n);
    DivMonotone(j * span + step * n, (j + 1) * span, n);
  }

  lemma PointWithin(j: nat, span: nat, n: nat)
    requires n > 0 && j <= n
    ensures j * span / n <= span
  {
    MulMonotone(j, n, span);
    DivMonotone(j * span, n * span, n);
    DivUnique(n * span, span, 0, n);
  }

  /** A sample point, with the product saturating as the source's does. */
  function Point(index: nat, span: nat, n: nat): nat
    requires n > 0
  {
    SaturatingMul(index, span) / n
  }

  lemma PointsSpaced(span: nat, n: nat, step: nat, i: nat, j: nat)
    requires n > 0 && step * n <= span && n * span <= U64_MAX && i < j <= n
    ensures Point(i, span, n) + step <= Point(j, span, n)
  {
    MulMonotone(i, n, span);
    MulMonotone(j, n, span);
    PointsApart(i, j, span, n, step);
    MulMonotone(1, j - i, step);
  }

  /** The first point is 0, and the last is the end of the span exactly when the product fits 64 bits. */
  lemma PointsReach(span: nat, n: nat)
    requires n > 0
    ensures Point(0, span, n) == 0
    ensures Point(n, span, n) == span <==> n * span <= U64_MAX
  {
    DivUnique(0, 0, 0, n);
    if n * span <= U64_MAX {
      DivUnique(n * span, span, 0, n);
    } else {
      var a := U64_MAX / n;
      assert U64_MAX == n * a + U64_MAX % n;
      assert a >= span ==> n * a >= n * span;
    }
  }

  /** Short of saturation, the sampled blocks increase strictly; they reach the last block exactly then. */
  lemma SampleBlocksSpread(blocks: nat, samples: nat)
    requires 2 <= samples <= blocks
    ensures SampleBlock(0, blocks, samples) == 0
    ensures SampleBlock(samples - 1, blocks, samples) == blocks - 1 <==> (samples - 1) * (blocks - 1) <= U64_MAX
    ensures (samples - 1) * (blocks - 1) <= U64_MAX ==>
              forall i, j | 0 <= i < j < samples :: SampleBlock(i, blocks, samples) < SampleBlock(j, blocks, samples)
  {
    PointsReach(blocks - 1, samples - 1);
    if (samples - 1) * (blocks - 1) <= U64_MAX {
      forall i, j | 0 <= i < j < samples ensures SampleBlock(i, blocks, samples) < SampleBlock(j, blocks, samples) {
        PointsSpaced(blocks - 1, samples - 1, 1, i, j);
      }
    }
  }

  // ---------------------------------------------------------------- the desktop preview

  const PREVIEW_WINDOW: nat := 512 * 1024
  const FILE_SAMPLE_CAP: nat := 1024 * 1024

  function PreviewWindow(size: nat, byteCap: nat): nat {
    if size <= byteCap then Max(size, 1) else Min(PREVIEW_WINDOW, Max(byteCap, 1))
  }

  function PreviewSamples(size: nat, byteCap: nat): (n: nat)
    ensures n >= 1
  {
    var window := PreviewWindow(size, byteCap);
    if size <= byteCap then 1 else Max(byteCap / window, 1)
  }

  /** The product behind the last window's offset fits 64 bits. */
  predicate NoSaturation(size: nat, byteCap: nat) {
    (PreviewSamples(size, byteCap) - 1) * SaturatingSub(size, PreviewWindow(size, byteCap)) <= U64_MAX
  }

  /** The whole file when it fits the cap, and full windows at the sample offsets otherwise. */
  predicate PreviewOf(size: nat, byteCap: nat, ws: seq<Window>) {
    if size <= byteCap then ws == if size == 0 then [] else [Window(0, size)]
    else
      && |ws| == PreviewSamples(size, byteCap)
      && forall k | 0 <= k < |ws| ::
           ws[k] == Window(SampleOffset(k, size, PreviewWindow(size, byteCap), |ws|), PreviewWindow(size, byteCap))
  }

  const MAGIC_PEEK: nat := 148

  /** What is read first, to recognise a format: nothing when the buffer is shorter than that. */
  function HeadWindow(buffer: nat, size: nat): Window {
    Window(0, if buffer < MAGIC_PEEK then 0 else Min(MAGIC_PEEK, size))
  }

  /** The reads of `estimate_open_file_pair` on a file that keeps its size: the head, then the windows. */
  method PreviewReads(size: nat, byteCap: nat) returns (head: Window, ws: seq<Window>)
    ensures head == HeadWindow(PreviewWindow(size, byteCap), size)
    ensures PreviewOf(size, byteCap, ws)
  {
    var window, samples := PreviewWindow(size, byteCap), PreviewSamples(size, byteCap);
    head := HeadWindow(window, size);
    ws := [];
    var index := 0;
    while index < samples
      invariant |ws| == index <= samples
      invariant size > 0 || index == 0
      invariant forall k | 0 <= k < index :: ws[k] == Window(SampleOffset(k, size, window, samples), window)
    {
      var offset := SampleOffset(index, size, window, samples);
      if offset >= size {
        OffsetInBounds(index, size, window, samples);
        break;
      }
      OffsetInBounds(index, size, window, samples);
      ws := ws + [Window(offset, Min(window, size - offset))];
      index := index + 1;
    }
  }

  /** No window is cut short by the end of the file, saturation or not. */
  lemma OffsetInBounds(index: nat, size: nat, window: nat, samples: nat)
    requires index < samples && 1 <= window && (window <= size || size == 0)
    ensures SampleOffset(index, size, window, samples) <= SaturatingSub(size, window)
  {
    var span := SaturatingSub(size, window);
    if samples > 1 {
      MulMonotone(index, samples - 1, span);
      DivMonotone(SaturatingMul(index, span), (samples - 1) * span, samples - 1);
      DivUnique((samples - 1) * span, span, 0, samples - 1);
    }
  }

  lemma {:induction false} TotalOfEqual(ws: seq<Window>, length: nat)
    requires forall k | 0 <= k < |ws| :: ws[k].length == length
    ensures Total(ws) == |ws| * length
    decreases |ws|
  {
    if ws != [] {
      TotalOfEqual(ws[..|ws| - 1], length);
      assert |ws| * length == (|ws| - 1) * length + length;
    }
  }

  /**
   The windows of a file over the cap: all inside it, together within the cap; short of saturation
   apart from each other; and the last one reaches the end of the file exactly short of saturation.
   */
  lemma PreviewWindowsFit(size: nat, byteCap: nat, ws: seq<Window>)
    requires 1 <= byteCap < size && PreviewOf(size, byteCap, ws)
    ensures Inside(ws, size) && Total(ws) <= byteCap
    ensures NoSaturation(size, byteCap) ==> Apart(ws)
    ensures |ws| >= 2 ==> ws[0].start == 0 && (ws[|ws| - 1].End() == size <==> NoSaturation(size, byteCap))
  {
    var window, n := PreviewWindow(size, byteCap), |ws|;
    WindowsFitCap(byteCap, window, n);
    TotalOfEqual(ws, window);
    forall k | 0 <= k < n ensures ws[k].End() <= size {
      OffsetInBounds(k, size, window, n);
    }
    if n >= 2 {
      OffsetsSpread(size, window, n);
    }
  }

  lemma WindowsFitCap(byteCap: nat, window: nat, n: nat)
    requires byteCap >= 1 && window == Min(PREVIEW_WINDOW, byteCap) && n == Max(byteCap / window, 1)
    ensures n * window <= byteCap
  {
    var q := byteCap / window;
    assert byteCap == window * q + byteCap % window;
    DivMonotone(window, byteCap, window);
    DivUnique(window, 1, 0, window);
  }

  lemma OffsetsSpread(size: nat, window: nat, samples: nat)
    requires samples >= 2 && window >= 1 && samples * window <= size
    ensures SampleOffset(0, size, window, samples) == 0
    ensures SampleOffset(samples - 1, size, window, samples) == size - window <==>
        (samples - 1) * (size - window) <= U64_MAX
    ensures (samples - 1) * (size - window) <= U64_MAX ==>
              forall i, j | 0 <= i < j < samples ::
                SampleOffset(i, size, window, samples) + window <= SampleOffset(j, size, window, samples)
  {
    assert (samples - 1) * window + window == samples * window;
    PointsReach(size - window, samples - 1);
    if (samples - 1) * (size - window) <= U64_MAX {
      forall i, j | 0 <= i < j < samples
        ensures SampleOffset(i, size, window, samples) + window <= SampleOffset(j, size, window, samples)
      {
        PointsSpaced(size - window, samples - 1, window, i, j);
      }
    }
  }

  /** The worker caps a file at 1 MiB, and under that cap no 64-bit size saturates. */
  lemma WorkerNeverSaturates(size: nat, byteCap: nat)
    requires size <= U64_MAX && byteCap <= FILE_SAMPLE_CAP
    ensures NoSaturation(size, byteCap)
  {
  }

  /** A cap of 0 still reads a byte, so the cap holds exactly when it is at least 1 or the file is empty. */
  lemma CapHoldsFromOne(size: nat, byteCap: nat, ws: seq<Window>)
    requires PreviewOf(size, byteCap, ws)
    ensures Total(ws) <= byteCap <==> byteCap >= 1 || size == 0
  {
    if size <= byteCap {
      TotalAppend([], Window(0, size));
      assert [] + [Window(0, size)] == [Window(0, size)];
    } else if byteCap >= 1 {
      PreviewWindowsFit(size, byteCap, ws);
    } else {
      TotalOfEqual(ws, 1);
    }
  }

  /**
   The cap is for the windows. With the head, which comes before them, the reads stay within it
   exactly if the head is not read, or fits beside a whole small file, or fits in what whole
   windows leave of the cap.
   */
  lemma CapWithHead(size: nat, byteCap: nat, ws: seq<Window>)
    requires PreviewOf(size, byteCap, ws)
    ensures var head := HeadWindow(PreviewWindow(size, byteCap), size);
            && head.End() <= size && head.length + Total(ws) <= Max(byteCap, 1) + MAGIC_PEEK
            && (head.length + Total(ws) <= byteCap <==>
                  if size <= byteCap then size < MAGIC_PEEK || size + MAGIC_PEEK <= byteCap
                  else
                    || 0 < byteCap < MAGIC_PEEK
                    || (byteCap >= PREVIEW_WINDOW && byteCap % PREVIEW_WINDOW >= MAGIC_PEEK))
  {
    if size <= byteCap {
      TotalAppend([], Window(0, size));
      assert [] + [Window(0, size)] == [Window(0, size)];
    } else {
      TotalOfEqual(ws, PreviewWindow(size, byteCap));
      WindowsTotal(byteCap);
    }
  }

  lemma WindowsTotal(byteCap: nat)
    ensures var window := Min(PREVIEW_WINDOW, Max(byteCap, 1));
            var n: nat := Max(byteCap / window, 1);
            n * window ==
              if byteCap == 0 then 1
              else if byteCap < PREVIEW_WINDOW then byteCap
              else byteCap - byteCap % PREVIEW_WINDOW
  {
    if 0 < byteCap < PREVIEW_WINDOW {
      DivUnique(byteCap, 1, 0, byteCap);
    }
  }

  // ---------------------------------------------------------------- the estimate of one file

  datatype UnitModel = Btrfs | Pack {
    function Block(): nat { if Btrfs? then 128 * 1024 else 4 * 1024 * 1024 }

    /** The most one file may read. */
    function ByteCap(): nat { if Btrfs? then 4 * 1024 * 1024 else 16 * 1024 * 1024 }
  }

  const MAX_BLOCKS_PER_FILE: nat := 32
  const CONTAINER_BLOCKS: nat := 8

  function Blocks(m: UnitModel, size: nat): (n: nat)
    ensures n >= 1
  {
    Max(DivCeil(size, m.Block()), 1)
  }

  function SampleCount(m: UnitModel, size: nat, container: bool): (n: nat)
    ensures 1 <= n <= Blocks(m, size)
  {
    Min(
      Min(Blocks(m, size), Max(DivCeil(m.ByteCap(), m.Block()), 1)),
      if container then CONTAINER_BLOCKS else MAX_BLOCKS_PER_FILE)
  }

  function BlockStart(m: UnitModel, size: nat, container: bool, k: nat): nat {
    SaturatingMul(SampleBlock(k, Blocks(m, size), SampleCount(m, size, container)), m.Block())
  }

  predicate EstimateOf(m: UnitModel, size: nat, container: bool, ws: seq<Window>) {
    if size == 0 then ws == []
    else
      && |ws| == SampleCount(m, size, container)
      && forall k | 0 <= k < |ws| ::
           var start := BlockStart(m, size, container, k);
           start < size && ws[k] == Window(start, Min(m.Block(), size - start))
  }

  lemma BlocksCover(m: UnitModel, size: nat)
    requires size > 0
    ensures (Blocks(m, size) - 1) * m.Block() < size <= Blocks(m, size) * m.Block()
    ensures size <= U64_MAX ==> (MAX_BLOCKS_PER_FILE - 1) * (Blocks(m, size) - 1) <= U64_MAX
  {
  }

  /** Saturation or not, only blocks of the file are sampled. */
  lemma SampleInBounds(k: nat, blocks: nat, samples: nat)
    requires k < samples && blocks >= 1
    ensures SampleBlock(k, blocks, samples) <= blocks - 1
  {
    if samples > 1 {
      var n, span := samples - 1, blocks - 1;
      MulMonotone(k, n, span);
      DivMonotone(SaturatingMul(k, span), n * span, n);
      DivUnique(n * span, span, 0, n);
    }
  }

  /** Every sampled block starts inside the file. */
  lemma BlockInBounds(m: UnitModel, size: nat, container: bool, k: nat)
    requires 0 < size <= U64_MAX && k < SampleCount(m, size, container)
    ensures SampleBlock(k, Blocks(m, size), SampleCount(m, size, container)) <= Blocks(m, size) - 1
    ensures BlockStart(m, size, container, k) < size
    ensures BlockStart(m, size, container, k) ==
            SampleBlock(k, Blocks(m, size), SampleCount(m, size, container)) * m.Block()
  {
    BlocksCover(m, size);
    var blocks, count := Blocks(m, size), SampleCount(m, size, container);
    SampleInBounds(k, blocks, count);
    MulMonotone(SampleBlock(k, blocks, count), blocks - 1, m.Block());
  }

  /**
   The reads of `estimate_open_file` on a file that keeps its size: the head, which tells whether
   the file is a container, then the blocks.
   */
  method EstimateReads(m: UnitModel, size: nat, container: bool) returns (head: Window, ws: seq<Window>)
    requires size <= U64_MAX
    ensures head == Window(0, Min(MAGIC_PEEK, size))
    ensures EstimateOf(m, size, container, ws)
  {
    head := HeadWindow(m.Block(), size);
    var count := SampleCount(m, size, container);
    ws := [];
    var i := 0;
    while i < count
      invariant |ws| == i <= count && (size == 0 ==> i == 0)
      invariant forall k | 0 <= k < i ::
                  var start := BlockStart(m, size, container, k);
                  start < size && ws[k] == Window(start, Min(m.Block(), size - start))
    {
      var offset := BlockStart(m, size, container, i);
      if size > 0 {
        BlockInBounds(m, size, container, i);
      }
      if offset >= size {
        break;
      }
      ws := ws + [Window(offset, Min(m.Block(), size - offset))];
      i := i + 1;
    }
  }

  lemma CountFits(m: UnitModel, size: nat, container: bool)
    ensures SampleCount(m, size, container) * m.Block() <= m.ByteCap()
  {
    var n := SampleCount(m, size, container);
    if m.Btrfs? {
      assert n <= 32;
    } else {
      assert n <= 4;
    }
  }

  /** The samples of any file: apart, inside it, within the model's cap, and reaching the end when there are several. */
  lemma EstimateFits(m: UnitModel, size: nat, container: bool, ws: seq<Window>)
    requires size <= U64_MAX && EstimateOf(m, size, container, ws)
    ensures Inside(ws, size) && Apart(ws) && Total(ws) <= m.ByteCap()
    ensures |ws| >= 2 ==> ws[0].start == 0 && ws[|ws| - 1].End() == size
  {
    if size > 0 {
      TotalAtMost(ws, m.Block());
      CountFits(m, size, container);
      if |ws| >= 2 {
        EstimateSpreads(m, size, container, ws);
      }
    }
  }

  lemma BlocksApart(a: nat, b: nat, block: nat, start: nat, length: nat)
    requires a < b && start == a * block && length <= block
    ensures start + length <= b * block
  {
    MulMonotone(a + 1, b, block);
    assert (a + 1) * block == a * block + block;
  }

  lemma EstimateSpreads(m: UnitModel, size: nat, container: bool, ws: seq<Window>)
    requires 0 < size <= U64_MAX && EstimateOf(m, size, container, ws) && |ws| >= 2
    ensures Apart(ws) && ws[0].start == 0 && ws[|ws| - 1].End() == size
  {
    var blocks, count := Blocks(m, size), |ws|;
    BlocksCover(m, size);
    MulMonotone(count - 1, MAX_BLOCKS_PER_FILE - 1, blocks - 1);
    SampleBlocksSpread(blocks, count);
    forall j, k | 0 <= j < k < count ensures ws[j].End() <= ws[k].start {
      BlockInBounds(m, size, container, j);
      BlockInBounds(m, size, container, k);
      BlocksApart(SampleBlock(j, blocks, count), SampleBlock(k, blocks, count), m.Block(), ws[j].start, ws[j].length);
    }
    EndsMeet(m, size, container, ws);
  }

  lemma EndsMeet(m: UnitModel, size: nat, container: bool, ws: seq<Window>)
    requires 0 < size <= U64_MAX && EstimateOf(m, size, container, ws) && |ws| >= 2
    requires SampleBlock(0, Blocks(m, size), |ws|) == 0
    requires SampleBlock(|ws| - 1, Blocks(m, size), |ws|) == Blocks(m, size) - 1
    ensures ws[0].start == 0 && ws[|ws| - 1].End() == size
  {
    BlocksCover(m, size);
    BlockInBounds(m, size, container, 0);
    BlockInBounds(m, size, container, |ws| - 1);
    var blocks, block := Blocks(m, size), m.Block();
    assert (blocks - 1) * block + block == blocks * block;
  }

  lemma {:induction false} TotalAtMost(ws: seq<Window>, block: nat)
    requires forall k | 0 <= k < |ws| :: ws[k].length <= block
    ensures Total(ws) <= |ws| * block
    decreases |ws|
  {
    if ws != [] {
      TotalAtMost(ws[..|ws| - 1], block);
      assert |ws| * block == (|ws| - 1) * block + block;
    }
  }

  // ---------------------------------------------------------------- the codec benchmark

  const FRAME: nat := 4 * 1024 * 1024

  /** `samples` whole frames cover `total` and one fewer would not. */
  predicate FramesFor(total: nat, samples: nat) {
    if total == 0 then samples == 0 else samples > 0 && (samples - 1) * FRAME < total <= samples * FRAME
  }

  lemma DivCeilFrames(total: nat)
    ensures FramesFor(total, DivCeil(total, FRAME))
  {
  }

  /** The `index`-th of `samples` reads of a file of which `total` bytes are sampled. */
  function BenchWindow(size: nat, total: nat, samples: nat, index: nat): Window {
    var length := Min(FRAME, SaturatingSub(total, index * FRAME));
    Window(BenchOffset(size, length, samples, index), length)
  }

  /** One sample is taken from the middle of the file, several evenly from its first byte on. */
  function BenchOffset(size: nat, length: nat, samples: nat, index: nat): nat {
    if samples <= 1 then SaturatingSub(size, length) / 2
    else SaturatingSub(size, length) / (samples - 1) * index
  }

  predicate BenchReads(size: nat, total: nat, samples: nat, ws: seq<Window>) {
    forall k | 0 <= k < |ws| :: ws[k] == BenchWindow(size, total, samples, k)
  }

  lemma QuotientTimes(span: nat, n: nat, k: nat)
    requires n > 0 && k <= n
    ensures span / n * k <= span
  {
    MulMonotone(k, n, span / n);
    assert span == n * (span / n) + span % n;
    assert span / n * k == k * (span / n);
  }

  lemma BenchInBounds(size: nat, total: nat, samples: nat, index: nat)
    requires total <= size && FramesFor(total, samples) && index < samples
    ensures BenchWindow(size, total, samples, index).End() <= size
    ensures BenchWindow(size, total, samples, index).length == Min(FRAME, total - index * FRAME) > 0
    ensures index * FRAME + BenchWindow(size, total, samples, index).length == Min((index + 1) * FRAME, total)
  {
    var length := BenchWindow(size, total, samples, index).length;
    if samples > 1 {
      QuotientTimes(size - length, samples - 1, index);
    }
  }

  /** The next window of a file, from what is left to sample of it. */
  method BenchNext(size: nat, samples: nat, index: nat, left: nat, ghost total: nat) returns (w: Window)
    requires left == SaturatingSub(total, index * FRAME)
    ensures w == BenchWindow(size, total, samples, index)
  {
    var length: nat := Min(left, FRAME);
    w := Window(BenchOffset(size, length, samples, index), length);
  }

  lemma InsideAppend(ws: seq<Window>, w: Window, size: nat)
    requires Inside(ws, size) && w.End() <= size
    ensures Inside(ws + [w], size) && Total(ws + [w]) == Total(ws) + w.length
  {
    TotalAppend(ws, w);
  }

  /** Windows `ws` of a file of which `total` bytes are wanted: all of them unless `stop` cuts them short. */
  ghost predicate FileReads(size: nat, total: nat, stop: nat -> bool, ws: seq<Window>) {
    exists samples: nat ::
      && FramesFor(total, samples) && BenchReads(size, total, samples, ws)
      && |ws| <= samples && (|ws| < samples ==> stop(|ws|))
  }

  /** The loop over one file's samples; `stop(k)` is the cancel flag before the `k`-th of them. */
  method BenchFile(size: nat, total: nat, remaining0: nat, stop: nat -> bool)
    returns (ws: seq<Window>, remaining: nat)
    requires total <= size && total <= remaining0
    ensures FileReads(size, total, stop, ws) && Inside(ws, size)
    ensures remaining + Total(ws) == remaining0 && Total(ws) <= total
    ensures (forall k: nat :: !stop(k)) ==> Total(ws) == total
  {
    var samples := DivCeil(total, FRAME);
    DivCeilFrames(total);
    var left, index := total, 0;
    ws, remaining := [], remaining0;
    while index < samples
      invariant FramesFor(total, samples)
      invariant |ws| == index <= samples && Total(ws) == Min(index * FRAME, total)
      invariant BenchReads(size, total, samples, ws) && Inside(ws, size)
      invariant left == total - Total(ws) && remaining == remaining0 - Total(ws)
    {
      if stop(index) {
        return;
      }
      var w := BenchNext(size, samples, index, left, total);
      BenchInBounds(size, total, samples, index);
      InsideAppend(ws, w, size);
      ws := ws + [w];
      remaining := remaining - w.length;
      left := left - w.length;
      index := index + 1;
    }
  }

  function AllRead(made: seq<seq<Window>>): nat {
    if made == [] then 0 else AllRead(made[..|made| - 1]) + Total(made[|made| - 1])
  }

  /** How much of each file is wanted: a fair share of the budget, from one frame to four. */
  function PerFile(budget: nat, files: nat): nat {
    Min(Max(budget / Max(files, 1), FRAME), 4 * FRAME)
  }

  /** The reads of a file of a run: none if it does not open, else those of as much as is wanted and left. */
  ghost predicate NextReads(
    size: nat, budget: nat, files: nat, spent: nat, opens: bool, stop: nat -> bool, ws: seq<Window>)
  {
    && spent <= budget && Inside(ws, size)
    && if !opens then ws == []
       else FileReads(size, Min(Min(size, PerFile(budget, files)), budget - spent), stop, ws)
  }

  /** The reads of the files so far. */
  ghost predicate RunReads(
    sizes: seq<nat>, budget: nat, opens: nat -> bool, stop: nat -> nat -> bool, made: seq<seq<Window>>)
    requires |made| <= |sizes|
  {
    made == []
    || var f := |made| - 1;
       && RunReads(sizes, budget, opens, stop, made[..f])
       && NextReads(sizes[f], budget, |sizes|, AllRead(made[..f]), opens(f), stop(f), made[f])
  }

  lemma OneMoreFile(
      sizes: seq<nat>, budget: nat, opens: nat -> bool, stop: nat -> nat -> bool, made: seq<seq<Window>>,
      ws: seq<Window>)
    requires |made| < |sizes| && RunReads(sizes, budget, opens, stop, made)
    requires
      var f := |made|;
      NextReads(sizes[f], budget, |sizes|, AllRead(made), opens(f), stop(f), ws)
    ensures RunReads(sizes, budget, opens, stop, made + [ws])
    ensures AllRead(made + [ws]) == AllRead(made) + Total(ws)
  {
    assert (made + [ws])[..|made|] == made;
  }

  /**
   The sampling loop of `run` over files of the given sizes, largest first. `opens(f)` says whether a
   file opens and `stop(f)(k)` is the cancel flag at its `k`-th sample. `made[f]` are the reads of
   file `f`; it ends at a file only when the budget is spent or the flag is up.
   */
  method BenchRun(sizes: seq<nat>, budgetMib: nat, opens: nat -> bool, stop: nat -> nat -> bool)
    returns (sampled: nat, remaining: nat, made: seq<seq<Window>>)
    requires 4 <= budgetMib <= 256
    ensures sampled + remaining == budgetMib * 1024 * 1024 && sampled == AllRead(made)
    ensures |made| <= |sizes| && RunReads(sizes, budgetMib * 1024 * 1024, opens, stop, made)
    ensures |made| < |sizes| ==> remaining == 0 || stop(|made|)(0)
  {
    var budget := budgetMib * 1024 * 1024;
    remaining, sampled, made := budget, 0, [];
    var perFile := PerFile(budget, |sizes|);
    for f := 0 to |sizes|
      invariant |made| == f && sampled + remaining == budget && sampled == AllRead(made)
      invariant RunReads(sizes, budget, opens, stop, made)
    {
      if remaining == 0 || stop(f)(0) {
        return;
      }
      var ws: seq<Window> := [];
      if opens(f) {
        ws, remaining := BenchFile(sizes[f], Min(Min(sizes[f], perFile), remaining), remaining, stop(f));
        sampled := sampled + Total(ws);
      }
      OneMoreFile(sizes, budget, opens, stop, made, ws);
      made := made + [ws];
    }
  }

  /**
   The benchmark's windows never share a byte exactly when there are at most two or the file holds
   them all as whole frames.
   */
  lemma BenchApartExactly(size: nat, total: nat, ws: seq<Window>)
    requires 0 < total <= size && FramesFor(total, |ws|) && BenchReads(size, total, |ws|, ws)
    ensures Apart(ws) <==> |ws| <= 2 || |ws| * FRAME <= size
  {
    if |ws| == 2 {
      assert ws[1].start == (size - ws[1].length) / 1 * 1;
    } else if |ws| > 2 && |ws| * FRAME <= size {
      forall j, k | 0 <= j < k < |ws| ensures ws[j].End() <= ws[k].start {
        BenchStep(size, total, ws, j, k);
      }
    } else if |ws| > 2 {
      BenchOverlap(size, total, ws);
    }
  }

  /** Spread over too short a file, the first two windows already overlap. */
  lemma BenchOverlap(size: nat, total: nat, ws: seq<Window>)
    requires 0 < total <= size && FramesFor(total, |ws|) && BenchReads(size, total, |ws|, ws)
    requires |ws| > 2 && |ws| * FRAME > size
    ensures ws[0].End() > ws[1].start
  {
    var n := |ws| - 1;
    assert n * FRAME + FRAME == |ws| * FRAME;
    QuotientBelow(size - FRAME, n, FRAME);
    assert ws[1].start == (size - FRAME) / n * 1;
  }

  lemma QuotientBelow(span: nat, n: nat, x: nat)
    requires n > 0 && span < n * x
    ensures span / n < x
  {
    var q := span / n;
    assert span == n * q + span % n;
    assert q >= x ==> n * q >= n * x;
  }

  lemma BenchStep(size: nat, total: nat, ws: seq<Window>, j: nat, k: nat)
    requires 0 < total <= size && FramesFor(total, |ws|) && BenchReads(size, total, |ws|, ws)
    requires |ws| > 2 && |ws| * FRAME <= size && j < k < |ws|
    ensures ws[j].End() <= ws[k].start
  {
    BenchInBounds(size, total, |ws|, k);
    FullBefore(total, |ws|, j);
    QuotientsStep(size - FRAME, size - ws[k].length, |ws| - 1, j, k);
  }

  /** Every sample but the last is a whole frame. */
  lemma FullBefore(total: nat, samples: nat, j: nat)
    requires FramesFor(total, samples) && j + 1 < samples
    ensures Min(FRAME, SaturatingSub(total, j * FRAME)) == FRAME
  {
    MulMonotone(j + 1, samples - 1, FRAME);
    assert (j + 1) * FRAME == j * FRAME + FRAME;
  }

  lemma QuotientsStep(span: nat, wider: nat, n: nat, j: nat, k: nat)
    requires n > 0 && FRAME * n <= span <= wider && j < k
    ensures span / n * j + FRAME <= wider / n * k
  {
    var q, r := span / n, wider / n;
    DivMonotone(FRAME * n, span, n);
    DivUnique(FRAME * n, FRAME, 0, n);
    DivMonotone(span, wider, n);
    MulMonotone(j + 1, k, r);
    MulMonotone(q, r, j);
    assert q * j == j * q && r * k == k * r && (j + 1) * r == j * r + r && q * j <= r * j;
  }
}
