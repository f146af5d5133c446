/** The disk collector: bytes read and written per second over the allowed
    block devices (`collect_io`) and the used and total space of the allowed
    mount points (`collect_block_info`). The block statistics and the disk
    list are inputs; the one-second sleep between the two samples is not
    part of the model. */
module Disk {
  import opened Wrappers
  import opened Bytes
  import opened Counters

  const SECTOR_SIZE: u64 := 512

  /** One entry of `block_device_statistics()`. */
  datatype BlockStats = BlockStats(name: string, readSectors: u64, writeSectors: u64)

  /** The blocks whose name is in `allowed`, in order. */
  function AllowedBlocks(blocks: seq<BlockStats>, allowed: seq<string>): (r: seq<BlockStats>)
    ensures |r| <= |blocks|
  {
    if blocks == [] then []
    else
      var init, last := blocks[..|blocks| - 1], blocks[|blocks| - 1];
      assert blocks == init + [last];
      AllowedBlocks(init, allowed) + (if last.name in allowed then [last] else [])
  }

  function ReadsOf(blocks: seq<BlockStats>): (r: seq<u64>)
    ensures |r| == |blocks| && forall i :: 0 <= i < |blocks| ==> r[i] == blocks[i].readSectors
  {
    seq(|blocks|, i requires 0 <= i < |blocks| => blocks[i].readSectors)
  }

  function WritesOf(blocks: seq<BlockStats>): (r: seq<u64>)
    ensures |r| == |blocks| && forall i :: 0 <= i < |blocks| ==> r[i] == blocks[i].writeSectors
  {
    seq(|blocks|, i requires 0 <= i < |blocks| => blocks[i].writeSectors)
  }

  /** Sectors read over the allowed blocks, added with `saturating_add`:
      the exact number read by those blocks, capped at 2^64 - 1. */
  function ReadSectors(blocks: seq<BlockStats>, allowed: seq<string>): (r: u64)
    ensures r == Min(Sum(ReadsOf(AllowedBlocks(blocks, allowed))), U64_MAX)
  {
    SaturatingSumIsCappedSum(ReadsOf(AllowedBlocks(blocks, allowed)));
    SaturatingSum(ReadsOf(AllowedBlocks(blocks, allowed)))
  }

  /** Sectors written over the allowed blocks, the same way. */
  function WriteSectors(blocks: seq<BlockStats>, allowed: seq<string>): (r: u64)
    ensures r == Min(Sum(WritesOf(AllowedBlocks(blocks, allowed))), U64_MAX)
  {
    SaturatingSumIsCappedSum(WritesOf(AllowedBlocks(blocks, allowed)));
    SaturatingSum(WritesOf(AllowedBlocks(blocks, allowed)))
  }

  /** A block outside `allowed` adds nothing; an allowed one is added with saturation. */
  lemma ReadSectorsStep(blocks: seq<BlockStats>, allowed: seq<string>, b: BlockStats)
    ensures b.name !in allowed ==> ReadSectors(blocks + [b], allowed) == ReadSectors(blocks, allowed)
    ensures b.name in allowed ==> ReadSectors(blocks + [b], allowed) == SatAdd(ReadSectors(blocks, allowed), b.readSectors)
  {
    assert (blocks + [b])[..|blocks|] == blocks;
    var allowedHere := AllowedBlocks(blocks, allowed);
    assert AllowedBlocks(blocks + [b], allowed) == allowedHere + (if b.name in allowed then [b] else []);
    if b.name in allowed {
      var xs := ReadsOf(allowedHere + [b]);
      assert xs[..|xs| - 1] == ReadsOf(allowedHere);
    } else {
      assert AllowedBlocks(blocks + [b], allowed) == allowedHere;
    }
  }

  lemma WriteSectorsStep(blocks: seq<BlockStats>, allowed: seq<string>, b: BlockStats)
    ensures b.name !in allowed ==> WriteSectors(blocks + [b], allowed) == WriteSectors(blocks, allowed)
    ensures b.name in allowed ==> WriteSectors(blocks + [b], allowed) == SatAdd(WriteSectors(blocks, allowed), b.writeSectors)
  {
    assert (blocks + [b])[..|blocks|] == blocks;
    var allowedHere := AllowedBlocks(blocks, allowed);
    assert AllowedBlocks(blocks + [b], allowed) == allowedHere + (if b.name in allowed then [b] else []);
    if b.name in allowed {
      var xs := WritesOf(allowedHere + [b]);
      assert xs[..|xs| - 1] == WritesOf(allowedHere);
    } else {
      assert AllowedBlocks(blocks + [b], allowed) == allowedHere;
    }
  }

  /** One pass of `collect_io` over the statistics: the two sector accumulators. */
  method SectorTotals(blocks: seq<BlockStats>, allowed: seq<string>) returns (readTotal: u64, writeTotal: u64)
    ensures readTotal == ReadSectors(blocks, allowed) && writeTotal == WriteSectors(blocks, allowed)
  {
    readTotal, writeTotal := 0, 0;
    var i := 0;
    while i < |blocks|
      invariant 0 <= i <= |blocks|
      invariant readTotal == ReadSectors(blocks[..i], allowed) && writeTotal == WriteSectors(blocks[..i], allowed)
    {
      var block := blocks[i];
      ReadSectorsStep(blocks[..i], allowed, block);
      WriteSectorsStep(blocks[..i], allowed, block);
      assert blocks[..i + 1] == blocks[..i] + [block];
      if block.name in allowed {
        readTotal := SatAdd(readTotal, block.readSectors);
        writeTotal := SatAdd(writeTotal, block.writeSectors);
      }
      i := i + 1;
    }
    assert blocks[..i] == blocks;
  }

  /** Bytes moved between two samples of a sector counter. */
  function IoDelta(start: u64, end: u64): (r: u64)
    ensures end <= start ==> r == 0
    ensures start <= end && (end - start) * SECTOR_SIZE <= U64_MAX ==> r == (end - start) * SECTOR_SIZE
    ensures start < end && (end - start) * SECTOR_SIZE > U64_MAX ==> r == U64_MAX
  {
    SatMul(SatSub(end, start), SECTOR_SIZE)
  }

  /** `collect_io`: `[read bytes, written bytes]` between the two samples, or
      `[0, 0]` when either `block_device_statistics()` call fails (`None`). */
  method CollectIo(initial: Option<seq<BlockStats>>, final: Option<seq<BlockStats>>, allowed: seq<string>)
    returns (r: seq<u64>)
    ensures |r| == 2
    ensures initial.None? || final.None? ==> r == [0, 0]
    ensures initial.Some? && final.Some? ==>
      && r[0] == IoDelta(ReadSectors(initial.value, allowed), ReadSectors(final.value, allowed))
      && r[1] == IoDelta(WriteSectors(initial.value, allowed), WriteSectors(final.value, allowed))
  {
    match initial {
      case None =>
        r := [0, 0];
      case Some(initialStats) =>
        var startRead, startWrite := SectorTotals(initialStats, allowed);
        match final {
          case None =>
            r := [0, 0];
          case Some(finalStats) =>
            var endRead, endWrite := SectorTotals(finalStats, allowed);
            var readBytes := SatMul(SatSub(endRead, startRead), SECTOR_SIZE);
            var writeBytes := SatMul(SatSub(endWrite, startWrite), SECTOR_SIZE);
            r := [readBytes, writeBytes];
        }
    }
  }

  /** One entry of `sysinfo::Disks`; `mountPoint` is `None` when the mount
      point is not valid UTF-8. */
  datatype DiskInfo = DiskInfo(mountPoint: Option<string>, removable: bool, totalSpace: u64, availableSpace: u64)

  predicate Counted(d: DiskInfo, allowed: seq<string>)
  {
    d.mountPoint.Some? && !d.removable && d.mountPoint.value in allowed
  }

  /** The disks `collect_block_info` adds up, in order. */
  function CountedDisks(disks: seq<DiskInfo>, allowed: seq<string>): (r: seq<DiskInfo>)
    ensures |r| <= |disks|
  {
    if disks == [] then []
    else
      var init, last := disks[..|disks| - 1], disks[|disks| - 1];
      assert disks == init + [last];
      CountedDisks(init, allowed) + (if Counted(last, allowed) then [last] else [])
  }

  function TotalTerms(disks: seq<DiskInfo>): (r: seq<int>)
    ensures |r| == |disks| && forall i :: 0 <= i < |disks| ==> r[i] == disks[i].totalSpace
  {
    seq(|disks|, i requires 0 <= i < |disks| => disks[i].totalSpace as int)
  }

  /** `total_space - available_space` per disk, before any wrap-around. */
  function UsedTerms(disks: seq<DiskInfo>): (r: seq<int>)
    ensures |r| == |disks| && forall i :: 0 <= i < |disks| ==> r[i] == disks[i].totalSpace - disks[i].availableSpace
  {
    seq(|disks|, i requires 0 <= i < |disks| => disks[i].totalSpace - disks[i].availableSpace)
  }

  /** `collect_block_info`: `[used, total]` over the non-removable disks whose
      mount point is allowed. The `+=` and `-` on u64 wrap, as in a release
      build, so the result is the exact sum reduced modulo 2^64. */
  method CollectBlockInfo(disks: seq<DiskInfo>, allowed: seq<string>) returns (r: seq<u64>)
    ensures r == [WrappingSum(UsedTerms(CountedDisks(disks, allowed))),
                  WrappingSum(TotalTerms(CountedDisks(disks, allowed)))]
  {
    var diskTotal: u64, diskUsed: u64 := 0, 0;
    var i := 0;
    while i < |disks|
      invariant 0 <= i <= |disks|
      invariant diskTotal == WrapU64(IntSum(TotalTerms(CountedDisks(disks[..i], allowed))))
      invariant diskUsed == WrapU64(IntSum(UsedTerms(CountedDisks(disks[..i], allowed))))
    {
      var disk := disks[i];
      ghost var counted := CountedDisks(disks[..i], allowed);
      CountedStep(disks, i, allowed);
      if disk.mountPoint.Some? {
        if !disk.removable && disk.mountPoint.value in allowed {
          AccumulateStep(diskTotal, diskUsed, counted, disk);
          diskTotal := WrapU64(diskTotal + disk.totalSpace);
          diskUsed := WrapU64(diskUsed + WrapU64(disk.totalSpace - disk.availableSpace));
        }
      }
      i := i + 1;
    }
    assert disks[..i] == disks;
    WrappingSumIsReducedSum(UsedTerms(CountedDisks(disks, allowed)));
    WrappingSumIsReducedSum(TotalTerms(CountedDisks(disks, allowed)));
    r := [diskUsed, diskTotal];
  }

  lemma CountedStep(disks: seq<DiskInfo>, i: nat, allowed: seq<string>)
    requires i < |disks|
    ensures Counted(disks[i], allowed) ==>
      CountedDisks(disks[..i + 1], allowed) == CountedDisks(disks[..i], allowed) + [disks[i]]
    ensures !Counted(disks[i], allowed) ==>
      CountedDisks(disks[..i + 1], allowed) == CountedDisks(disks[..i], allowed)
  {
    assert disks[..i + 1][..i] == disks[..i];
    assert CountedDisks(disks[..i], allowed) + [] == CountedDisks(disks[..i], allowed);
  }

  lemma TermsStep(counted: seq<DiskInfo>, disk: DiskInfo)
    ensures IntSum(TotalTerms(counted + [disk])) == IntSum(TotalTerms(counted)) + disk.totalSpace
    ensures IntSum(UsedTerms(counted + [disk])) == IntSum(UsedTerms(counted)) + (disk.totalSpace - disk.availableSpace)
  {
    assert TotalTerms(counted + [disk])[..|counted|] == TotalTerms(counted);
    assert UsedTerms(counted + [disk])[..|counted|] == UsedTerms(counted);
  }

  /** One disk added to the two wrapping accumulators. */
  lemma AccumulateStep(total: u64, used: u64, counted: seq<DiskInfo>, disk: DiskInfo)
    requires total == WrapU64(IntSum(TotalTerms(counted))) && used == WrapU64(IntSum(UsedTerms(counted)))
    ensures WrapU64(total + disk.totalSpace) == WrapU64(IntSum(TotalTerms(counted + [disk])))
    ensures WrapU64(used + WrapU64(disk.totalSpace - disk.availableSpace)) == WrapU64(IntSum(UsedTerms(counted + [disk])))
  {
    var d := disk.totalSpace - disk.availableSpace;
    TermsStep(counted, disk);
    WrapAdd(IntSum(TotalTerms(counted)), disk.totalSpace);
    WrapAdd(IntSum(UsedTerms(counted)), d);
    WrapAdd(d, used);
    assert used + WrapU64(d) == WrapU64(d) + used;
    assert d + WrapU64(IntSum(UsedTerms(counted))) == WrapU64(IntSum(UsedTerms(counted))) + d;
  }

  /** Without underflow (no disk reports more available than total space) and
      without overflow (the totals fit in a u64), the used figure is the exact
      sum of used space and never exceeds the total. */
  lemma {:induction false} BlockInfoExact(disks: seq<DiskInfo>)
    requires forall i :: 0 <= i < |disks| ==> disks[i].availableSpace <= disks[i].totalSpace
    requires IntSum(TotalTerms(disks)) <= U64_MAX
    ensures 0 <= IntSum(UsedTerms(disks)) <= IntSum(TotalTerms(disks))
    ensures WrapU64(IntSum(UsedTerms(disks))) == IntSum(UsedTerms(disks))
    ensures WrapU64(IntSum(TotalTerms(disks))) == IntSum(TotalTerms(disks))
  {
    SumsOrdered(disks);
  }

  lemma {:induction false} SumsOrdered(disks: seq<DiskInfo>)
    requires forall i :: 0 <= i < |disks| ==> disks[i].availableSpace <= disks[i].totalSpace
    ensures 0 <= IntSum(UsedTerms(disks)) <= IntSum(TotalTerms(disks))
  {
    if disks != [] {
      var init := disks[..|disks| - 1];
      SumsOrdered(init);
      assert UsedTerms(disks)[..|disks| - 1] == UsedTerms(init);
      assert TotalTerms(disks)[..|disks| - 1] == TotalTerms(init);
    }
  }

  /** Counted disks all pass the filter, so the exactness conditions only
      concern disks that are mounted at an allowed point and not removable. */
  lemma CountedOnly(disks: seq<DiskInfo>, allowed: seq<string>)
    requires forall d :: d in disks && Counted(d, allowed) ==> d.availableSpace <= d.totalSpace
    requires IntSum(TotalTerms(CountedDisks(disks, allowed))) <= U64_MAX
    ensures var c := CountedDisks(disks, allowed);
      && 0 <= IntSum(UsedTerms(c)) <= IntSum(TotalTerms(c))
      && WrapU64(IntSum(UsedTerms(c))) == IntSum(UsedTerms(c))
  {
    var c := CountedDisks(disks, allowed);
    CountedDisksPass(disks, allowed);
    BlockInfoExact(c);
  }

  lemma {:induction false} CountedDisksPass(disks: seq<DiskInfo>, allowed: seq<string>)
    ensures forall i :: 0 <= i < |CountedDisks(disks, allowed)| ==>
      CountedDisks(disks, allowed)[i] in disks && Counted(CountedDisks(disks, allowed)[i], allowed)
  {
    if disks != [] {
      var init := disks[..|disks| - 1];
      CountedDisksPass(init, allowed);
      assert forall d :: d in init ==> d in disks;
    }
  }
}
