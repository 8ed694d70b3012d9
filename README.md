# VyOS unattended installation: disk choice and layout, in Dafny

This project models the decision logic of the cloud-init module
`cc_vyos_install`. On first boot of a live image, this module installs VyOS
onto a local disk. The model covers:

- **Disk enumeration** (`disks_size`). The decoded `lsblk -Jbp` records are
  folded into a name-to-size dictionary. Only records of type `"disk"` are
  kept. The dictionary is a Python `dict`, so it is modelled as an
  insertion-ordered sequence of pairs (`OrderedDict`). A repeated name keeps
  its first position and takes the last size.
- **Target selection** (`find_disk`). It returns the first entry, in
  dictionary order, whose size is strictly greater than 2147483648 bytes. If
  there is none, it returns `("", 0)`.
- **Layout decisions in `handle`**:
  - the abort when `find_disk` yields an empty name;
  - the partition prefix `"p"` for disks whose name contains `nvme` or
    `mmcblk`;
  - the EFI partition (number 2) and the root partition (number 3);
  - the root file-system size in KiB, `(size - 259 MiB) // 1024`.
- **GRUB variables.** The module-level `DEFAULT_BOOT_VARS` dictionary is
  modelled as one shared object (`BootVarTable`). `handle` rewrites it in
  place for a serial console, through the alias `boot_vars`.
- **Cleanup list building** (`cleanup`). Mount points under
  `/mnt/installation` are appended to the caller's unmount list. The
  directory itself is added to the caller's removal list. Both lists are
  objects the caller owns (`PathList`) and are extended in place.

Loops in the source are methods with loop invariants. `DisksSize`,
`PartPrefix`, `DeriveBootVars` and `Cleanup` are proved equal to a
specification function (`DiskMap`, `PartitionPrefix`, `DerivedBootVars`,
`CollectMounts` and `AddIfAbsent`). `SelectTarget`, `FindDisk` and
`PlanInstall` are specified through the predicate `IsFirstOver`, "the first
entry larger than 2 GiB". Lemmas state what these definitions mean.

Target choice follows `find_disk` exactly:

- `find_disk` returns the first qualifying disk in `lsblk` order, not the
  first by name. The model keeps that order (`Disks.SelectTarget`,
  `Disks.FirstOverUnique`).
- The 2 GiB threshold is a literal in `find_disk` and a constant here
  (`Disks.MinDiskSize`).

Modelling notes:

- Python's `//` floors. For the positive divisor 1024 this equals Dafny's
  Euclidean `/` (`Partitioning.RootfsSize`).
- `handle` tests `if not install_target`, so a disk whose name is empty
  would abort the installation even if it qualifies. `Partitioning.PlanInstall`
  states this case exactly. `lsblk -p` reports full device paths, so the
  case does not arise in practice.
- `str.startswith("/mnt/installation")` is a string-prefix test, not a path
  test. A mount point such as `/mnt/installation-old` is collected too. The
  model keeps the string test (`Cleanup.StartsWith`).

## Model

| member | source | states |
|---|---|---|
| `OrderedDict.Update` | cloudinit/config/cc_vyos_install.py:73 | `dict.update` with one key: the key then maps to the new value. Every other key keeps its value. A present key keeps its position, and a new key is appended. Distinct keys stay distinct. |
| `Disks.DiskMap` | cloudinit/config/cc_vyos_install.py:68-73 | The dictionary `disks_size` builds, one update per record of type "disk", has at most one entry per record. |
| `Disks.DisksSize` | cloudinit/config/cc_vyos_install.py:63-74 | The loop builds exactly `DiskMap(devices)`: one dictionary update per record of type "disk", in record order. |
| `Disks.DiskMapKeys` | cloudinit/config/cc_vyos_install.py:71-73 | The dictionary's keys are the names of the "disk" records, each at the position of its first record, without repeats. |
| `Disks.DiskMapDomain` | cloudinit/config/cc_vyos_install.py:72 | A name is a key iff some record of type "disk" carries it. Partitions, loop devices and ROMs never appear. |
| `Disks.DiskMapLastSize` | cloudinit/config/cc_vyos_install.py:73 | A name maps to the size of the last "disk" record with that name. |
| `Disks.DiskMapDistinct` | cloudinit/config/cc_vyos_install.py:68-74 | No key occurs twice in the dictionary. |
| `Disks.SelectTarget` | cloudinit/config/cc_vyos_install.py:84-92 | The result is `("", 0)` iff no entry exceeds 2147483648, including the empty dictionary. Otherwise it is the entry that is first in order to exceed the threshold, and every earlier entry is at most 2147483648. |
| `Disks.FindDisk` | cloudinit/config/cc_vyos_install.py:77-92 | The same two statements as `SelectTarget`, over the dictionary `disks_size` builds from the records. |
| `Disks.FirstOverUnique` | cloudinit/config/cc_vyos_install.py:87-90 | At most one entry is the first to exceed the threshold, so the choice is determined by the dictionary and its order. |
| `Disks.ThresholdBoundary` | cloudinit/config/cc_vyos_install.py:87-90 | For every dictionary, once all earlier entries are at most 2147483648, an entry is chosen iff it exceeds 2147483648. An entry of exactly 2147483648 is never chosen, and one of 2147483649 is. |
| `Partitioning.Contains` | cloudinit/config/cc_vyos_install.py:184 | Python's `in` on strings: true iff the pattern occurs as a contiguous substring. |
| `Partitioning.PartitionPrefix` | cloudinit/config/cc_vyos_install.py:182-185 | The prefix is "" or "p", and it is "p" iff the disk name contains "nvme" or "mmcblk". |
| `Partitioning.PartPrefix` | cloudinit/config/cc_vyos_install.py:182-185 | The prefix is "p" iff the disk name contains "nvme" or "mmcblk"; otherwise it is "". |
| `Partitioning.EfiPartition` | cloudinit/config/cc_vyos_install.py:197 | The EFI partition name starts with the disk name, ends in "2", and only the prefix lies between. |
| `Partitioning.RootPartition` | cloudinit/config/cc_vyos_install.py:199 | The root partition name starts with the disk name, ends in "3", and only the prefix lies between. |
| `Partitioning.PartitionNamesInjective` | cloudinit/config/cc_vyos_install.py:197-199 | The names `target + prefix + "2"` and `target + prefix + "3"` determine the disk: two disks never share an EFI name or a root name. An EFI name is never a root name. |
| `Partitioning.RootfsSize` | cloudinit/config/cc_vyos_install.py:189 | The result is the floor of (size − reserved space) / 1024: `r*1024 <= size − reserved < (r+1)*1024`. |
| `Partitioning.RootfsFits` | cloudinit/config/cc_vyos_install.py:42-43 | The reserved space is 271581184 bytes (259 MiB). On every disk `find_disk` can choose, the root size is positive and the reserved space plus the root fits on the disk. |
| `Partitioning.PlanInstall` | cloudinit/config/cc_vyos_install.py:176-199 | No layout iff no disk exceeds 2 GiB, or the first one that does has an empty name. Otherwise the layout names the first qualifying disk, its prefix, its partitions 2 and 3, and its positive root size. |
| `BootVars.CfgByPath` | cloudinit/config/cc_vyos_install.py:240-251 | `get_cfg_by_path` on a flattened configuration: the configured value when the path is present, otherwise the default. |
| `BootVars.ResolveBootParams` | cloudinit/config/cc_vyos_install.py:239-252 | Each of the four boot parameters takes its configured value when present. Otherwise it is "kvm", "0", "9600" or "". |
| `BootVars.ResolveBootParamsDefaults` | cloudinit/config/cc_vyos_install.py:239-252 | With no boot parameters configured, the values are "kvm", "0", "9600" and "". A configured console type is used as given. |
| `BootVars.DefaultBootVarsLayout` | cloudinit/config/cc_vyos_install.py:50-56 | The default table has the five keys timeout, console_type, console_num, console_speed and bootmode, in that order, with timeout "5" and bootmode "normal". |
| `BootVars.DerivedBootVars` | cloudinit/config/cc_vyos_install.py:254-258 | The rewritten table keeps the old keys first, in their order. It gains at most the three console keys, and distinct keys stay distinct. |
| `BootVars.DerivedBootVarsConsole` | cloudinit/config/cc_vyos_install.py:255-258 | For console type "serial": console_type becomes "ttyS", console_num takes serial_console_num and console_speed takes serial_console_speed. For any other console type the table is unchanged. |
| `BootVars.DerivedBootVarsKeepRest` | cloudinit/config/cc_vyos_install.py:254-258 | Every other key, including timeout and bootmode, keeps its value. A table that already has the three console keys keeps its keys and their order. |
| `BootVars.ConsoleRewrite` | cloudinit/config/cc_vyos_install.py:254-258 | On a table laid out like the defaults, a serial console replaces entries 1 to 3 in place and leaves the rest as they were. |
| `BootVars.BootVarTable.Defaults` | cloudinit/config/cc_vyos_install.py:50-56 | The shared table starts as the default table. |
| `BootVars.BootVarTable.Set` | cloudinit/config/cc_vyos_install.py:256-258 | `d[k] = v` on the shared object is the dictionary update of its contents. |
| `BootVars.DeriveBootVars` | cloudinit/config/cc_vyos_install.py:254-258 | `boot_vars` is the module-level object itself. Its new contents are the serial rewrite of its old contents. |
| `BootVars.SharedDefaultsStayRewritten` | cloudinit/config/cc_vyos_install.py:254 | After a serial derivation, a later non-serial derivation on the same object still yields console_type "ttyS". |
| `Cleanup.CollectMounts` | cloudinit/config/cc_vyos_install.py:113-117 | The list after the loop: the caller's entries plus at most one mount point per listed partition. |
| `Cleanup.CollectMountsKeepsCallerEntries` | cloudinit/config/cc_vyos_install.py:113-117 | The caller's mount entries stay first, in their order. |
| `Cleanup.CollectMountsSound` | cloudinit/config/cc_vyos_install.py:113-117 | Every appended entry is the mount point of a listed partition that starts with /mnt/installation. |
| `Cleanup.CollectMountsComplete` | cloudinit/config/cc_vyos_install.py:113-117 | For every listed partition under /mnt/installation, its device or its mount point ends up in the list. |
| `Cleanup.CollectMountsAppendsFresh` | cloudinit/config/cc_vyos_install.py:114-117 | For any caller list, repeats included, every appended entry differs from every entry before it. Nothing is appended twice, and nothing the list already holds is appended. |
| `Cleanup.CollectMountsNoDuplicates` | cloudinit/config/cc_vyos_install.py:114-117 | A caller list without repeats stays without repeats. |
| `Cleanup.AddIfAbsent` | cloudinit/config/cc_vyos_install.py:119-120 | The list is unchanged if /mnt/installation is already in it. Otherwise /mnt/installation is appended once at the end. Either way it is in the list, the old list is a prefix, and its count is 1 if it was absent. |
| `Cleanup.PathList.Append` | cloudinit/config/cc_vyos_install.py:117 | `list.append` extends the shared list by one element at the end. |
| `Cleanup.Cleanup` | cloudinit/config/cc_vyos_install.py:101-120 | The caller's `mounts` becomes `CollectMounts` of its old contents, and `remove_items` gets /mnt/installation added if absent. If both arguments are one list, both additions land in it. |

## Left out

- Running `lsblk` and decoding its JSON. The model takes the decoded
  top-level records as input; nested `children` entries are not read by the
  source either.
- `psutil.disk_partitions`. The model takes the (device, mount point) list as
  input.
- Everything delegated to `vyos.system` (`disk`, `grub`, `image`) and
  `vyos.template.render`: disk cleanup, partition-table and file-system
  creation, mount and unmount, GRUB structure, version entries, install,
  inode sorting, live-boot detection and the running image name. These are
  foreign calls whose behaviour is not visible here.
- File-system effects: `prepare_tmp_disr`, the directory creation, the `cp
  -pr` of the configuration, the copying of kernel and squashfs files, the
  `persistence.conf` file, `setup_grub`, the Cloud-init disabling marker,
  the reboot line appended to the post-config script, `os.sync`, and the
  unmount and removal loops at the end of `cleanup`. These are I/O.
- The sequencing of `handle` beyond the decisions in `PlanInstall`, the
  `activated` and `ci_disable` and `post_reboot` switches, and all logging.
  These only gate or order I/O.
- `get_cfg_by_path` on nested configuration. The model flattens the
  configuration to a map from slash-separated path to string
  (`BootVars.ResolveBootParams`). Non-string YAML values are not modelled.
- The mutable default arguments of `cleanup`. The one call site passes fresh
  lists, so the model always takes the lists from the caller.
- `cloudinit/config/cc_vyos_ifupdown.py`. It only runs `ifquery`/`ifdown`,
  deletes two files and swallows exceptions; it holds no logic beyond I/O.
