/** The Windows branch of getDisksLoad: a walk over the bit mask of logical drives. */
module Drives {
  import opened Wrappers
  import opened Bytes
  import opened NodeInfo

  // What GetDiskFreeSpaceExA reports for a device, if it succeeds.
  datatype Space = Space(freeBytesAvailable: Word64, totalNumberOfBytes: Word64)

  // The system call, and the conversion of a 64-bit integer to a double.
  datatype Environment = Environment(freeSpace: Text -> Option<Space>, toDouble: Word64 -> Double)

  // Drive number i, counted from 0, is called "A:\" and so on.
  function DeviceName(i: nat): Text
    requires i < 32
  {
    ['A' as int + i, ':' as int, '\\' as int]
  }

  function InfoOf(env: Environment, i: nat): Option<DiskInfo>
    requires i < 32
  {
    match env.freeSpace(DeviceName(i))
    case Some(space) =>
      Some(DiskInfo(DeviceName(i), env.toDouble(space.freeBytesAvailable), env.toDouble(space.totalNumberOfBytes)))
    case None => None
  }

  // Bit i of a mask.
  function BitOf(mask: nat, i: nat): bool {
    if i == 0 then mask % 2 == 1 else BitOf(mask / 2, i - 1)
  }

  function PopCount(mask: nat): nat {
    if mask == 0 then 0 else mask % 2 + PopCount(mask / 2)
  }

  lemma {:induction false} NoBits(i: nat)
    ensures !BitOf(0, i)
  {
    if i > 0 {
      NoBits(i - 1);
    }
  }

  function Pow2(n: nat): (p: nat)
    ensures p > 0
  {
    if n == 0 then 1 else 2 * Pow2(n - 1)
  }

  function Shifted(mask: nat, n: nat): nat {
    if n == 0 then mask else Shifted(mask / 2, n - 1)
  }

  lemma ShiftedByNothing(mask: nat)
    ensures Shifted(mask, 0) == mask && PopCount(0) == 0
  {
  }

  lemma {:induction false} ShiftedBit(mask: nat, n: nat)
    ensures BitOf(mask, n) <==> Shifted(mask, n) % 2 == 1
    ensures Shifted(mask, n + 1) == Shifted(mask, n) / 2
  {
    if n > 0 {
      ShiftedBit(mask / 2, n - 1);
    }
  }

  lemma {:induction false} ShiftedOut(mask: nat, n: nat, i: nat)
    requires Shifted(mask, n) == 0 && n <= i
    ensures !BitOf(mask, i)
  {
    if n == 0 {
      NoBits(i);
    } else {
      ShiftedOut(mask / 2, n - 1, i - 1);
    }
  }

  lemma {:induction false} ShiftedSmall(mask: nat, n: nat, bits: nat)
    requires mask < Pow2(bits) && n <= bits
    ensures Shifted(mask, n) < Pow2(bits - n)
  {
    if n > 0 {
      ShiftedSmall(mask / 2, n - 1, bits - 1);
    }
  }

  lemma MaskFits(drives: Word32)
    ensures drives < Pow2(32)
  {
    assert Pow2(8) == 256 && Pow2(16) == 0x1_0000 && Pow2(24) == 0x100_0000;
  }

  // Bit i of a mask is digit i to the base 2.
  lemma {:induction false} BitIsDigit(mask: nat, i: nat)
    ensures BitOf(mask, i) <==> (mask / Pow2(i)) % 2 == 1
  {
    if i > 0 {
      BitIsDigit(mask / 2, i - 1);
      DivideTwice(mask, 2, Pow2(i - 1));
    }
  }

  // A mask with one more bit behind it has that bit more.
  lemma PopCountOfNext(mask: nat)
    ensures PopCount(0) == 0
    ensures PopCount(2 * mask) == PopCount(mask) && PopCount(2 * mask + 1) == PopCount(mask) + 1
  {
    assert (2 * mask + 1) / 2 == mask;
  }

  // One step of the walk: what the lowest bit of the shifted mask stands for, and what is left to do.
  lemma WalkStep(mask: nat, n: nat)
    requires mask < Pow2(32) && n <= 32 && Shifted(mask, n) != 0
    ensures n < 32
    ensures BitOf(mask, n) <==> Shifted(mask, n) % 2 == 1
    ensures Shifted(mask, n + 1) == Shifted(mask, n) / 2
    ensures PopCount(Shifted(mask, n)) == Shifted(mask, n) % 2 + PopCount(Shifted(mask, n + 1))
  {
    ShiftedBit(mask, n);
    ShiftedSmall(mask, n, 32);
  }

  // For each set bit whose query succeeds, and for no other, one entry, in ascending letter order; letters tells
  // which bit each entry stands for. On an unsigned integer, drives & 1 and drives >>= 1 are the remainder and the
  // quotient by 2.
  method GetDisksLoad(logicalDrives: Word32, env: Environment)
    returns (diskInfoList: seq<DiskInfo>, ghost letters: seq<nat>)
    ensures |letters| == |diskInfoList|
    ensures forall j, k :: 0 <= j < k < |letters| ==> letters[j] < letters[k]
    ensures forall i: nat :: i in letters <==>
              i < 32 && BitOf(logicalDrives, i) && env.freeSpace(['A' as int + i, ':' as int, '\\' as int]).Some?
    ensures forall k :: 0 <= k < |letters| ==> letters[k] < 32 && InfoOf(env, letters[k]) == Some(diskInfoList[k])
    ensures forall k :: 0 <= k < |letters| ==>
              var disk := diskInfoList[k];
              && disk.name == ['A' as int + letters[k], ':' as int, '\\' as int]
              && env.freeSpace(disk.name).Some?
              && disk.availableBytes == env.toDouble(env.freeSpace(disk.name).value.freeBytesAvailable)
              && disk.totalBytes == env.toDouble(env.freeSpace(disk.name).value.totalNumberOfBytes)
    ensures |diskInfoList| <= PopCount(logicalDrives)
  {
    hide BitOf, PopCount, Shifted, Pow2;
    ghost var mask := logicalDrives;
    var drives := logicalDrives;
    var driveLetter := 'A';
    diskInfoList, letters := [], [];
    ghost var n: nat := 0;
    MaskFits(logicalDrives);
    ShiftedByNothing(mask);
    while drives != 0
      invariant n <= 32 && driveLetter as int == 'A' as int + n
      invariant drives == Shifted(mask, n)
      invariant |letters| == |diskInfoList|
      invariant forall j, k :: 0 <= j < k < |letters| ==> letters[j] < letters[k]
      invariant forall i: nat :: i in letters <==> i < n && BitOf(mask, i) && InfoOf(env, i).Some?
      invariant forall k :: 0 <= k < |letters| ==> letters[k] < n && InfoOf(env, letters[k]) == Some(diskInfoList[k])
      invariant |diskInfoList| + PopCount(drives) <= PopCount(mask)
      decreases drives
    {
      WalkStep(mask, n);
      if drives % 2 == 1 {
        var deviceName: Text := [driveLetter as int] + [':' as int, '\\' as int];
        assert deviceName == DeviceName(n);
        match env.freeSpace(deviceName) {
          case Some(space) =>
            var availableMemory := env.toDouble(space.freeBytesAvailable);
            var totalMemory := env.toDouble(space.totalNumberOfBytes);
            diskInfoList := diskInfoList + [DiskInfo(deviceName, availableMemory, totalMemory)];
            letters := letters + [n];
          case None =>
        }
      }
      drives := drives / 2;
      driveLetter := (driveLetter as int + 1) as char;
      n := n + 1;
    }
    forall i: nat | n <= i
      ensures !BitOf(mask, i)
    {
      ShiftedOut(mask, n, i);
    }
  }
}
