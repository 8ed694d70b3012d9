/** The list-building half of `cleanup`: which mount points to unmount and
    which paths to remove once the installation is over. */
module Cleanup {

  /** The working directory of the installer. */
  const InstallationDir: string := "/mnt/installation"

  /** One entry of `psutil.disk_partitions(all=True)`. */
  datatype MountedPartition = MountedPartition(device: string, mountpoint: string)

  /** Python's `s.startswith(prefix)`. */
  predicate StartsWith(s: string, prefix: string)
  {
    prefix <= s
  }

  /** `cleanup` appends the mount point of `p` to `mounts`: it lies under
      the installation directory and neither its device nor its mount point
      is listed yet. */
  predicate ShouldUnmount(mounts: seq<string>, p: MountedPartition)
  {
    StartsWith(p.mountpoint, InstallationDir) && !(p.device in mounts || p.mountpoint in mounts)
  }

  /** The `mounts` list after the loop over `partitions`, each partition
      tested against the list as it stands when its turn comes. */
  function CollectMounts(mounts: seq<string>, partitions: seq<MountedPartition>): (r: seq<string>)
    ensures |mounts| <= |r| <= |mounts| + |partitions|
    decreases |partitions|
  {
    if partitions == [] then mounts
    else
      var acc := CollectMounts(mounts, partitions[..|partitions| - 1]);
      var p := partitions[|partitions| - 1];
      if ShouldUnmount(acc, p) then acc + [p.mountpoint] else acc
  }

  ghost predicate NoDuplicates(s: seq<string>)
  {
    forall i, j :: 0 <= i < j < |s| ==> s[i] != s[j]
  }

  /** The caller's entries stay first, in their order. */
  lemma {:induction false} CollectMountsKeepsCallerEntries(mounts: seq<string>, partitions: seq<MountedPartition>)
    ensures mounts <= CollectMounts(mounts, partitions)
    decreases |partitions|
  {
    if partitions != [] {
      CollectMountsKeepsCallerEntries(mounts, partitions[..|partitions| - 1]);
    }
  }

  /** `x` is the mount point of one of `partitions` under the installation
      directory. */
  ghost predicate MountedUnderInstallation(partitions: seq<MountedPartition>, x: string)
  {
    exists j :: 0 <= j < |partitions| && partitions[j].mountpoint == x && StartsWith(x, InstallationDir)
  }

  /** Everything appended is the mount point of a listed partition under
      the installation directory. */
  lemma {:induction false} CollectMountsSound(mounts: seq<string>, partitions: seq<MountedPartition>)
    ensures forall i :: |mounts| <= i < |CollectMounts(mounts, partitions)| ==>
      MountedUnderInstallation(partitions, CollectMounts(mounts, partitions)[i])
    decreases |partitions|
  {
    if partitions != [] {
      var pre := partitions[..|partitions| - 1];
      CollectMountsSound(mounts, pre);
      CollectMountsKeepsCallerEntries(mounts, pre);
      var acc := CollectMounts(mounts, pre);
      var r := CollectMounts(mounts, partitions);
      forall i | |mounts| <= i < |r|
        ensures MountedUnderInstallation(partitions, r[i])
      {
        if i < |acc| {
          assert MountedUnderInstallation(pre, acc[i]);
          var j :| 0 <= j < |pre| && pre[j].mountpoint == acc[i] && StartsWith(acc[i], InstallationDir);
          assert partitions[j] == pre[j];
        } else {
          assert partitions[|partitions| - 1].mountpoint == r[i];
        }
      }
    }
  }

  /** Every listed partition under the installation directory ends up
      covered: its device or its mount point is in the list. */
  lemma {:induction false} CollectMountsComplete(mounts: seq<string>, partitions: seq<MountedPartition>)
    ensures forall j :: 0 <= j < |partitions| && StartsWith(partitions[j].mountpoint, InstallationDir) ==>
      partitions[j].device in CollectMounts(mounts, partitions) || partitions[j].mountpoint in CollectMounts(mounts, partitions)
    decreases |partitions|
  {
    if partitions != [] {
      var pre := partitions[..|partitions| - 1];
      CollectMountsComplete(mounts, pre);
      var acc := CollectMounts(mounts, pre);
      var r := CollectMounts(mounts, partitions);
      assert acc <= r;
      forall j | 0 <= j < |partitions| && StartsWith(partitions[j].mountpoint, InstallationDir)
        ensures partitions[j].device in r || partitions[j].mountpoint in r
      {
        if j < |pre| {
          assert partitions[j] == pre[j];
          if pre[j].device in acc {
            var k :| 0 <= k < |acc| && acc[k] == pre[j].device;
            assert r[k] == acc[k];
          } else {
            var k :| 0 <= k < |acc| && acc[k] == pre[j].mountpoint;
            assert r[k] == acc[k];
          }
        }
      }
    }
  }

  /** Nothing is appended twice, and nothing is appended that the list
      already holds, whatever the caller passed in. */
  lemma {:induction false} CollectMountsAppendsFresh(mounts: seq<string>, partitions: seq<MountedPartition>)
    ensures forall i, j :: 0 <= i < j < |CollectMounts(mounts, partitions)| && |mounts| <= j ==>
      CollectMounts(mounts, partitions)[i] != CollectMounts(mounts, partitions)[j]
    decreases |partitions|
  {
    if partitions != [] {
      var pre := partitions[..|partitions| - 1];
      CollectMountsAppendsFresh(mounts, pre);
      CollectMountsKeepsCallerEntries(mounts, pre);
    }
  }

  /** A list without repeats stays without repeats. */
  lemma CollectMountsNoDuplicates(mounts: seq<string>, partitions: seq<MountedPartition>)
    requires NoDuplicates(mounts)
    ensures NoDuplicates(CollectMounts(mounts, partitions))
  {
    CollectMountsAppendsFresh(mounts, partitions);
    CollectMountsKeepsCallerEntries(mounts, partitions);
  }

  /** `if item not in items: items.append(item)`. */
  function AddIfAbsent(items: seq<string>, x: string): (r: seq<string>)
    ensures r == if x in items then items else items + [x]
    ensures items <= r && |r| <= |items| + 1
    ensures x in r
    ensures multiset(r)[x] == if x in items then multiset(items)[x] else 1
  {
    if x in items then items
    else
      assert (items + [x])[|items|] == x;
      assert multiset(items + [x]) == multiset(items) + multiset{x};
      items + [x]
  }

  /** A Python `list[str]` that callers share by reference. */
  class PathList {
    var items: seq<string>

    constructor (items: seq<string>)
      ensures this.items == items
    {
      this.items := items;
    }

    /** `self.append(x)`. */
    method Append(x: string)
      modifies this
      ensures items == old(items) + [x]
    {
      items := items + [x];
    }
  }

  /** The list building of `cleanup(mounts, remove_items)` over the
      partitions psutil lists. Both lists are the caller's own objects and
      are extended in place; should the caller pass one list twice, both
      additions land in it. */
  method Cleanup(mounts: PathList, removeItems: PathList, partitions: seq<MountedPartition>)
    modifies mounts, removeItems
    ensures mounts != removeItems ==>
      && mounts.items == CollectMounts(old(mounts.items), partitions)
      && removeItems.items == AddIfAbsent(old(removeItems.items), InstallationDir)
    ensures mounts == removeItems ==>
      mounts.items == AddIfAbsent(CollectMounts(old(mounts.items), partitions), InstallationDir)
  {
    var i := 0;
    while i < |partitions|
      invariant 0 <= i <= |partitions|
      invariant mounts.items == CollectMounts(old(mounts.items), partitions[..i])
      invariant mounts != removeItems ==> removeItems.items == old(removeItems.items)
    {
      assert partitions[..i + 1][..i] == partitions[..i];
      var p := partitions[i];
      if ShouldUnmount(mounts.items, p) {
        mounts.Append(p.mountpoint);
      }
      i := i + 1;
    }
    assert partitions[..|partitions|] == partitions;
    if InstallationDir !in removeItems.items {
      removeItems.Append(InstallationDir);
    }
  }
}
