/** Choosing the compression level of one file from a few sampled blocks. */
module Levels {
  import opened Common
  import opened Sampling

  const SECTOR: nat := 4096
  const U32_MAX: nat := 0xFFFF_FFFF
  const LEVEL_SAMPLE_BLOCKS: nat := 8

  function Sectors(n: nat): nat {
    DivCeil(n, SECTOR)
  }

  /** The sectors a block takes; `compressed` is a `u32`. */
  function DiskSectors(m: UnitModel, uncompressed: nat, compressed: nat): nat {
    var needed: nat := Min(compressed + SECTOR, U32_MAX);
    if (if m.Btrfs? then needed > uncompressed else needed >= uncompressed)
    then Sectors(uncompressed)
    else Sectors(compressed)
  }

  /** `disk_cost` of either model. */
  function DiskCost(m: UnitModel, uncompressed: nat, compressed: nat): nat {
    4096 * DiskSectors(m, uncompressed, compressed)
  }

  /** A block never costs more than storing it as it is, and less exactly if a whole sector is saved. */
  lemma CostIsBounded(m: UnitModel, uncompressed: nat, compressed: nat)
    requires uncompressed <= m.Block()
    ensures DiskSectors(m, uncompressed, compressed) <= Sectors(uncompressed) <= 1024
    ensures DiskSectors(m, uncompressed, compressed) < Sectors(uncompressed) <==>
              if m.Btrfs? then compressed + SECTOR <= uncompressed else compressed + SECTOR < uncompressed
    ensures DiskSectors(m, uncompressed, compressed) < Sectors(uncompressed) ==>
              DiskSectors(m, uncompressed, compressed) == Sectors(compressed)
    ensures uncompressed <= 4096 * Sectors(uncompressed) < uncompressed + 4096
  {
  }

  /** The two models price a block differently exactly at the edge, and then by one sector. */
  lemma ModelsDifferAtTheEdge(uncompressed: nat, compressed: nat)
    requires uncompressed <= Btrfs.Block()
    ensures DiskCost(Btrfs, uncompressed, compressed) != DiskCost(Pack, uncompressed, compressed) <==>
        compressed + SECTOR == uncompressed
    ensures compressed + SECTOR == uncompressed ==>
              DiskCost(Pack, uncompressed, compressed) == DiskCost(Btrfs, uncompressed, compressed) + SECTOR
  {
  }

  function LevelSamples(m: UnitModel, size: nat): (n: nat)
    ensures 1 <= n <= LEVEL_SAMPLE_BLOCKS
  {
    Min(Blocks(m, size), LEVEL_SAMPLE_BLOCKS)
  }

  function LevelWindow(m: UnitModel, size: nat, k: nat): Window {
    var start := SaturatingMul(SampleBlock(k, Blocks(m, size), LevelSamples(m, size)), m.Block());
    Window(start, Min(m.Block(), SaturatingSub(size, start)))
  }

  /** Every block sampled is a block of the file. */
  lemma LevelWindowInside(m: UnitModel, size: nat, k: nat)
    requires 0 < size <= U64_MAX && k < LevelSamples(m, size)
    ensures LevelWindow(m, size, k).start < size && LevelWindow(m, size, k).End() <= size
    ensures 0 < LevelWindow(m, size, k).length <= m.Block()
  {
    var block := SampleBlock(k, Blocks(m, size), LevelSamples(m, size));
    BlocksCover(m, size);
    SampleInBounds(k, Blocks(m, size), LevelSamples(m, size));
    MulMonotone(block, Blocks(m, size) - 1, m.Block());
  }

  /** One block read: its length, and its compressed lengths at the two levels. */
  datatype Sample = Sample(raw: nat, atLow: nat, atHigh: nat) {
    function At(high: bool): nat { if high then atHigh else atLow }
  }

  predicate Sampled(m: UnitModel, samples: seq<Sample>) {
    |samples| <= LEVEL_SAMPLE_BLOCKS && forall k | 0 <= k < |samples| :: 0 < samples[k].raw <= m.Block()
  }

  /** What the first `n` samples take on disk at the high or the low level, in sectors. */
  function SampleSectors(m: UnitModel, samples: seq<Sample>, high: bool, n: nat): nat
    requires n <= |samples|
  {
    if n == 0 then 0
    else SampleSectors(m, samples, high, n - 1) + DiskSectors(m, samples[n - 1].raw, samples[n - 1].At(high))
  }

  lemma {:induction false} SectorsBounded(m: UnitModel, samples: seq<Sample>, high: bool, n: nat)
    requires Sampled(m, samples) && n <= |samples|
    ensures SampleSectors(m, samples, high, n) <= n * 1024
  {
    if n > 0 {
      SectorsBounded(m, samples, high, n - 1);
      CostIsBounded(m, samples[n - 1].raw, samples[n - 1].At(high));
    }
  }

  /** `worth_the_level`. */
  predicate WorthTheLevel(costLow: nat, costHigh: nat, sampled: nat) {
    sampled > 0 && SaturatingSub(costLow, costHigh) >= SECTOR
  }

  /**
   `choose_level`: the expensive level exactly if it makes the samples cheaper on disk by anything
   at all, since costs are whole sectors; ties and regressions keep the cheap one.
   */
  method ChooseLevel(m: UnitModel, samples: seq<Sample>, low: int, high: int) returns (level: int)
    requires Sampled(m, samples)
    ensures level ==
            if low < high && SampleSectors(m, samples, true, |samples|) < SampleSectors(m, samples, false, |samples|)
            then high else low
  {
    if low >= high {
      return low;
    }
    var costLow, costHigh, sampled := 0, 0, 0;
    for i := 0 to |samples|
      invariant costLow == 4096 * SampleSectors(m, samples, false, i)
      invariant costHigh == 4096 * SampleSectors(m, samples, true, i)
      invariant sampled > 0 <==> i > 0
    {
      SectorsBounded(m, samples, false, i + 1);
      SectorsBounded(m, samples, true, i + 1);
      costLow := SaturatingAdd(costLow, DiskCost(m, samples[i].raw, samples[i].atLow));
      costHigh := SaturatingAdd(costHigh, DiskCost(m, samples[i].raw, samples[i].atHigh));
      sampled := SaturatingAdd(sampled, samples[i].raw);
    }
    level := if WorthTheLevel(costLow, costHigh, sampled) then high else low;
  }
}
