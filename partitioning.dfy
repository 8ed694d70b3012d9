/** The layout `handle` derives from the chosen disk: the partition-name
    prefix, the names of the EFI and root partitions, and the size of the
    root file system in KiB. */
module Partitioning {
  import opened OrderedDict
  import opened Disks

  /** `pat` occurs in `s` as a contiguous substring. */
  ghost predicate IsSubstring(pat: string, s: string)
  {
    exists i :: 0 <= i <= |s| && pat <= s[i..]
  }

  /** Python's `pat in s` on strings. */
  function Contains(s: string, pat: string): (r: bool)
    ensures r <==> IsSubstring(pat, s)
    decreases |s|
  {
    if pat <= s then
      assert s[0..] == s;
      true
    else if s == [] then
      false
    else
      var r := Contains(s[1..], pat);
      assert forall i :: 1 <= i <= |s| ==> s[1..][i - 1..] == s[i..];
      assert IsSubstring(pat, s) ==> IsSubstring(pat, s[1..]) by {
        if IsSubstring(pat, s) {
          var i :| 0 <= i <= |s| && pat <= s[i..];
          assert i != 0;
          assert pat <= s[1..][i - 1..];
        }
      }
      r
  }

  /** Device families whose partitions are named with a "p" before the
      partition number. */
  const PrefixedDeviceTypes: seq<string> := ["nvme", "mmcblk"]

  /** The prefix `handle` puts between a disk name and a partition number. */
  ghost function PartitionPrefix(target: string): (r: string)
    ensures r == "" || r == "p"
    ensures r == "p" <==> IsSubstring("nvme", target) || IsSubstring("mmcblk", target)
  {
    if IsSubstring("nvme", target) || IsSubstring("mmcblk", target) then "p" else ""
  }

  /** The loop of `handle` that sets `part_prefix`. */
  method PartPrefix(target: string) returns (prefix: string)
    ensures prefix == PartitionPrefix(target)
  {
    prefix := "";
    for k := 0 to |PrefixedDeviceTypes|
      invariant prefix == if exists j :: 0 <= j < k && IsSubstring(PrefixedDeviceTypes[j], target) then "p" else ""
    {
      if Contains(target, PrefixedDeviceTypes[k]) {
        prefix := "p";
      }
    }
    assert PrefixedDeviceTypes[0] == "nvme" && PrefixedDeviceTypes[1] == "mmcblk";
  }

  /** Partition 2 of the target disk, formatted as the EFI system partition. */
  ghost function EfiPartition(target: string): (r: string)
    ensures |r| == |target| + |PartitionPrefix(target)| + 1
    ensures target <= r && r[|r| - 1] == '2'
  {
    target + PartitionPrefix(target) + "2"
  }

  /** Partition 3 of the target disk, formatted as ext4 and holding the
      root file system. */
  ghost function RootPartition(target: string): (r: string)
    ensures |r| == |target| + |PartitionPrefix(target)| + 1
    ensures target <= r && r[|r| - 1] == '3'
  {
    target + PartitionPrefix(target) + "3"
  }

  /** Appending to a string keeps every substring it had. */
  lemma SubstringExtend(pat: string, s: string, t: string)
    requires IsSubstring(pat, s)
    ensures IsSubstring(pat, s + t)
  {
    var i :| 0 <= i <= |s| && pat <= s[i..];
    assert (s + t)[i..] == s[i..] + t;
  }

  /** Different disks never share an EFI or a root partition name, and an
      EFI partition name is never a root partition name. */
  lemma PartitionNamesInjective(t1: string, t2: string)
    ensures EfiPartition(t1) == EfiPartition(t2) ==> t1 == t2
    ensures RootPartition(t1) == RootPartition(t2) ==> t1 == t2
    ensures EfiPartition(t1) != RootPartition(t2)
  {
    var p1, p2 := PartitionPrefix(t1), PartitionPrefix(t2);
    assert EfiPartition(t1)[|EfiPartition(t1)| - 1] == '2';
    assert RootPartition(t2)[|RootPartition(t2)| - 1] == '3';
    if EfiPartition(t1) == EfiPartition(t2) || RootPartition(t1) == RootPartition(t2) {
      var c := if EfiPartition(t1) == EfiPartition(t2) then "2" else "3";
      assert t1 + p1 + c == t2 + p2 + c;
      assert t1 + p1 == (t1 + p1 + c)[..|t1 + p1|];
      assert t2 + p2 == (t2 + p2 + c)[..|t2 + p2|];
      assert t1 + p1 == t2 + p2;
      if p1 != p2 {
        if p1 == "p" {
          assert t2 == t1 + "p";
          if IsSubstring("nvme", t1) { SubstringExtend("nvme", t1, "p"); }
          if IsSubstring("mmcblk", t1) { SubstringExtend("mmcblk", t1, "p"); }
        } else {
          assert t1 == t2 + "p";
          if IsSubstring("nvme", t2) { SubstringExtend("nvme", t2, "p"); }
          if IsSubstring("mmcblk", t2) { SubstringExtend("mmcblk", t2, "p"); }
        }
      } else {
        assert t1 == (t1 + p1)[..|t1|];
      }
    }
  }

  /** Reserved at the start of the disk: 2 MiB for the partition-table
      header, 1 MiB for the BIOS boot partition and 256 MiB for the EFI
      partition. */
  const ReservedSpace: int := (2 + 1 + 256) * 1024 * 1024

  /** The root file system size, in KiB, handed to the partitioner: the
      rest of the disk after the reserved space, rounded down to whole KiB.
      Python's `//` floors; for the positive divisor 1024 this is Dafny's
      `/` as well. */
  function RootfsSize(targetSize: int): (r: int)
    ensures r * 1024 <= targetSize - ReservedSpace < (r + 1) * 1024
  {
    (targetSize - ReservedSpace) / 1024
  }

  /** On any disk `find_disk` can choose, the root file system is not empty
      and the reserved space plus the root file system fit on the disk. */
  lemma RootfsFits(targetSize: int)
    requires targetSize > MinDiskSize
    ensures ReservedSpace == 271581184
    ensures RootfsSize(targetSize) > 0
    ensures ReservedSpace + RootfsSize(targetSize) * 1024 <= targetSize
  {
  }

  /** What `handle` decides before it touches the disk. */
  datatype InstallLayout = InstallLayout(
    target: string,
    targetSize: nat,
    partPrefix: string,
    efiPartition: string,
    rootPartition: string,
    rootfsSize: int)

  /** The decisions of `handle` from `find_disk` to the partition names:
      no layout when `find_disk` returns an empty name (no disk over 2 GiB,
      or a first qualifying disk whose name is empty), otherwise the layout
      of the first disk over 2 GiB. */
  method PlanInstall(devices: seq<BlockDevice>) returns (plan: Option<InstallLayout>)
    ensures plan.None? <==>
      || (forall i :: 0 <= i < |DiskMap(devices)| ==> DiskMap(devices)[i].1 <= MinDiskSize)
      || (exists i :: IsFirstOver(DiskMap(devices), i) && DiskMap(devices)[i].0 == "")
    ensures plan.Some? ==>
      && plan.value.target != ""
      && (exists i :: IsFirstOver(DiskMap(devices), i) && DiskMap(devices)[i] == (plan.value.target, plan.value.targetSize))
      && plan.value.partPrefix == PartitionPrefix(plan.value.target)
      && plan.value.efiPartition == EfiPartition(plan.value.target)
      && plan.value.rootPartition == RootPartition(plan.value.target)
      && plan.value.rootfsSize == RootfsSize(plan.value.targetSize)
      && plan.value.rootfsSize > 0
  {
    var target, size := FindDisk(devices);
    if target == "" {
      return None;
    }
    ghost var m := DiskMap(devices);
    assert (target, size) != ("", 0);
    ghost var i :| IsFirstOver(m, i) && m[i] == (target, size);
    forall i' | IsFirstOver(m, i')
      ensures m[i'].0 != ""
    {
      FirstOverUnique(m, i, i');
    }
    var prefix := PartPrefix(target);
    var rootfs := RootfsSize(size);
    RootfsFits(size);
    plan := Some(InstallLayout(target, size, prefix, target + prefix + "2", target + prefix + "3", rootfs));
  }
}
