/** Choosing the installation target: `disks_size` keeps the block devices
    of type "disk" in a name-to-size dictionary, and `find_disk` picks the
    first of them, in dictionary order, that is larger than 2 GiB. */
module Disks {
  import opened OrderedDict

  /** One top-level record of `lsblk -Jbp`, already decoded: the device
      path, its type ("disk", "loop", "rom", ...) and its size in bytes. */
  datatype BlockDevice = BlockDevice(name: string, kind: string, size: nat)

  /** A disk is a candidate only when it is strictly larger than this. */
  const MinDiskSize: nat := 2147483648

  /** The dictionary `disks_size` builds from `devices`: one `update` per
      record of type "disk", in record order. */
  function DiskMap(devices: seq<BlockDevice>): (r: Dict<nat>)
    ensures |r| <= |devices|
    decreases |devices|
  {
    if devices == [] then []
    else
      var m := DiskMap(devices[..|devices| - 1]);
      var d := devices[|devices| - 1];
      if d.kind == "disk" then Update(m, d.name, d.size) else m
  }

  /** The names of the records of type "disk", in record order, repeats
      included. */
  function DiskNames(devices: seq<BlockDevice>): (names: seq<string>)
    ensures forall x :: x in names <==> exists j :: 0 <= j < |devices| && devices[j].kind == "disk" && devices[j].name == x
    decreases |devices|
  {
    if devices == [] then []
    else
      var pre := devices[..|devices| - 1];
      var d := devices[|devices| - 1];
      var names := DiskNames(pre) + (if d.kind == "disk" then [d.name] else []);
      assert forall j :: 0 <= j < |pre| ==> pre[j] == devices[j];
      names
  }

  /** The distinct elements of `s`, each where it first occurs. */
  function FirstOccurrences(s: seq<string>): seq<string>
    decreases |s|
  {
    if s == [] then []
    else
      var f := FirstOccurrences(s[..|s| - 1]);
      if s[|s| - 1] in f then f else f + [s[|s| - 1]]
  }

  lemma {:induction false} FirstOccurrencesSpec(s: seq<string>)
    ensures forall x :: x in FirstOccurrences(s) <==> x in s
    ensures forall i, j :: 0 <= i < j < |FirstOccurrences(s)| ==> FirstOccurrences(s)[i] != FirstOccurrences(s)[j]
    decreases |s|
  {
    if s != [] {
      var pre := s[..|s| - 1];
      FirstOccurrencesSpec(pre);
      assert s == pre + [s[|s| - 1]];
    }
  }

  /** Record `j` is the last record of type "disk" with its name. */
  ghost predicate IsLastDisk(devices: seq<BlockDevice>, j: int)
  {
    && 0 <= j < |devices|
    && devices[j].kind == "disk"
    && forall j' :: j < j' < |devices| ==> !(devices[j'].kind == "disk" && devices[j'].name == devices[j].name)
  }

  /** The keys of the dictionary are the disk names, each at the position
      of its first record. */
  lemma {:induction false} DiskMapKeys(devices: seq<BlockDevice>)
    ensures Keys(DiskMap(devices)) == FirstOccurrences(DiskNames(devices))
    decreases |devices|
  {
    if devices != [] {
      var pre := devices[..|devices| - 1];
      var d := devices[|devices| - 1];
      DiskMapKeys(pre);
      if d.kind == "disk" {
        var names := DiskNames(devices);
        assert names == DiskNames(pre) + [d.name];
        assert names[..|names| - 1] == DiskNames(pre);
        assert names[|names| - 1] == d.name;
        var f := FirstOccurrences(DiskNames(pre));
        assert FirstOccurrences(names) == if d.name in f then f else f + [d.name];
        assert DiskMap(devices) == Update(DiskMap(pre), d.name, d.size);
      } else {
        assert DiskNames(devices) == DiskNames(pre) + [] == DiskNames(pre);
        assert DiskMap(devices) == DiskMap(pre);
      }
    }
  }

  /** A name is a key exactly when some record of type "disk" carries it. */
  lemma DiskMapDomain(devices: seq<BlockDevice>, k: string)
    ensures Lookup(DiskMap(devices), k).Some? <==> exists j :: 0 <= j < |devices| && devices[j].kind == "disk" && devices[j].name == k
  {
    DiskMapKeys(devices);
    FirstOccurrencesSpec(DiskNames(devices));
  }

  /** No name is a key twice. */
  lemma {:induction false} DiskMapDistinct(devices: seq<BlockDevice>)
    ensures DistinctKeys(DiskMap(devices))
    decreases |devices|
  {
    if devices != [] {
      DiskMapDistinct(devices[..|devices| - 1]);
    }
  }

  /** A name maps to the size of its last record of type "disk". */
  lemma {:induction false} DiskMapLastSize(devices: seq<BlockDevice>, j: int)
    requires IsLastDisk(devices, j)
    ensures Lookup(DiskMap(devices), devices[j].name) == Some(devices[j].size)
    decreases |devices|
  {
    var n := |devices| - 1;
    var pre := devices[..n];
    var d := devices[n];
    if j < n {
      assert IsLastDisk(pre, j);
      DiskMapLastSize(pre, j);
      if d.kind == "disk" {
        assert d.name != devices[j].name;
        assert DiskMap(devices) == Update(DiskMap(pre), d.name, d.size);
      } else {
        assert DiskMap(devices) == DiskMap(pre);
      }
    } else {
      assert DiskMap(devices) == Update(DiskMap(pre), d.name, d.size);
    }
  }

  /** `disks_size`, over the decoded `lsblk` records. */
  method DisksSize(devices: seq<BlockDevice>) returns (sizes: Dict<nat>)
    ensures sizes == DiskMap(devices)
  {
    sizes := [];
    var i := 0;
    while i < |devices|
      invariant 0 <= i <= |devices|
      invariant sizes == DiskMap(devices[..i])
    {
      assert devices[..i + 1][..i] == devices[..i];
      if devices[i].kind == "disk" {
        sizes := Update(sizes, devices[i].name, devices[i].size);
      }
      i := i + 1;
    }
    assert devices[..|devices|] == devices;
  }

  /** Entry `i` is the first entry of `disks` larger than `MinDiskSize`. */
  ghost predicate IsFirstOver(disks: Dict<nat>, i: int)
  {
    && 0 <= i < |disks|
    && disks[i].1 > MinDiskSize
    && forall j :: 0 <= j < i ==> disks[j].1 <= MinDiskSize
  }

  /** At most one entry is the first one over the threshold, so the choice
      is a function of the dictionary and its order. */
  lemma FirstOverUnique(disks: Dict<nat>, i: int, i': int)
    requires IsFirstOver(disks, i) && IsFirstOver(disks, i')
    ensures i == i'
  {
  }

  /** The scan of `find_disk` over the dictionary `disks_size` returned:
      `("", 0)` when no disk is larger than 2 GiB, otherwise the first one
      that is. */
  method SelectTarget(disks: Dict<nat>) returns (name: string, size: nat)
    ensures (name, size) == ("", 0) <==> forall i :: 0 <= i < |disks| ==> disks[i].1 <= MinDiskSize
    ensures (name, size) != ("", 0) ==> exists i :: IsFirstOver(disks, i) && disks[i] == (name, size)
  {
    if |disks| == 0 {
      return "", 0;
    }
    var i := 0;
    while i < |disks|
      invariant 0 <= i <= |disks|
      invariant forall j :: 0 <= j < i ==> disks[j].1 <= MinDiskSize
    {
      if disks[i].1 > MinDiskSize {
        assert IsFirstOver(disks, i);
        return disks[i].0, disks[i].1;
      }
      i := i + 1;
    }
    return "", 0;
  }

  /** `find_disk`: enumerate, then select. */
  method FindDisk(devices: seq<BlockDevice>) returns (name: string, size: nat)
    ensures (name, size) == ("", 0) <==> forall i :: 0 <= i < |DiskMap(devices)| ==> DiskMap(devices)[i].1 <= MinDiskSize
    ensures (name, size) != ("", 0) ==> exists i :: IsFirstOver(DiskMap(devices), i) && DiskMap(devices)[i] == (name, size)
  {
    var disks := DisksSize(devices);
    name, size := SelectTarget(disks);
  }

  /** The comparison is strict: once every earlier entry has been passed
      over, entry `i` is chosen exactly when it is larger than 2 GiB, so a
      disk of exactly 2 GiB is never chosen and one byte more is. */
  lemma ThresholdBoundary(disks: Dict<nat>, i: int)
    requires 0 <= i < |disks|
    requires forall j :: 0 <= j < i ==> disks[j].1 <= MinDiskSize
    ensures disks[i].1 == MinDiskSize ==> !IsFirstOver(disks, i)
    ensures disks[i].1 == MinDiskSize + 1 ==> IsFirstOver(disks, i)
    ensures IsFirstOver(disks, i) <==> disks[i].1 > MinDiskSize
  {
  }
}
