# stone: a verified model of the volume plugin's core

stone is a Docker volume plugin. Each named volume goes on one host disk,
as the directory `<mount point>/stone_volume/<name>`, and a filesystem group
quota caps its `_data` directory. The plugin does four things:

- It keeps a registry of volumes. `create`, `remove`, `mount`, `unmount`,
  `path`, `get` and `list` act on it.
- It chooses a disk for each new volume, by filtering and then ranking the
  inventory.
- It gives every volume a fresh group-quota id and a limit in KiB. There are
  two quota helper packages: the ext4 backend and the helpers in `tools`.
- It restores the registry at start-up from the `volume.json` record of every
  volume.

The model also covers two other parts of the repository:

- The disk inventory of the `docker-disk` helper: the `df` parser and the
  disk filters.
- The host-description helpers vendored from docker: the CPU topology, the
  `/proc/cpuinfo` parser and the `df` reader.

## How the model is built

Every external command and operating-system call becomes an input. This
covers `df`, `ls`, `cat`, `readlink`, `repquota`, `getfattr`, `setfattr`,
`setquota`, `quotaon`, `mount`, `stat`, `/proc/mounts`, directory listings
and file writes. The commands a call sends are recorded in order as a
sequence of `Command` values. Code that updates state is modelled as
imperative Dafny:

- The quota package variables (`quotaIds`, `quotaLastId`, `mountPoints`) are
  the class `QuotaCommon.QuotaGlobals`.
- The backend cache of `NewQuota` is the class `QuotaRegistry.Registry`.
- A volume's mount counters live in the class `LocalVolume.LocalVolume`.
- The plugin's volume map is the class `StonePlugin.Plugin`.
- The CPU topology is the class `SystemCpu.CpuInfo`.

Each loop of the source is a `method` with invariants. The method is proved
against a function that states what the loop computes. The properties the
code promises are then lemmas about that function.

| file | models |
|---|---|
| `wrappers.dfy`, `disk_types.dfy` | Option, Result and Outcome values, and the `DiskInfo` record of `stone_plugin/tools/disk_types.go` |
| `go_strings.dfy`, `go_strconv.dfy`, `go_path.dfy` | The parts of Go's `strings`, `strconv` and `path/filepath` that the core relies on |
| `options.dfy` | `validateOpts` and `setOpts` |
| `placement.dfy` | `chooseDisk` |
| `local_volume.dfy` | `localVolume`, `New`, `Remove`, `fromDisk`/`toDisk`, `allocateVolumeOnDisk` |
| `plugin.dfy` | `restoreVolumes` and the registry handlers |
| `quota_text.dfy` | Size strings, KiB limits, `repquota` rows, the mount table, quota-file headers |
| `quota_common.dfy` | The id loader, the id allocator, `setSubtree` and the per-device bootstrap. Each quota package has its own copy of this code. The copies differ in the id range, in the loader's upper bound (the tools copy has none, so its bound is the uint32 maximum) and in the allocator's loop (ext4 folds back to the minimum, tools lets `id++` wrap), and the model writes the code once with these as parameters |
| `ext4_quota.dfy`, `tools_quota.dfy` | The two quota packages |
| `quota_registry.dfy`, `bare_quota.dfy` | `NewQuota` and the bare backend |
| `docker_disk.dfy` | `ParseDf`, `skipMountedPath`, `skipFilesystem`, `Collect` |
| `cpuinfo.dfy`, `cpuinfo_parse.dfy` | `CpuInfo` and `parseCpuInfo` |
| `diskinfo.dfy` | `DisksInfo.DiskInfo` and `ReadDisksInfo` |

## Model

| member | source | states |
|---|---|---|
| GoStrings.Split | stone_plugin/quota/ext4quota.go:267-268 | `strings.Split` never returns an empty list. |
| GoStrings.SplitJoined | stone_plugin/quota/ext4quota.go:267-268 | Joining the pieces of a split with the separator gives the string back. |
| GoStrings.SplitOfJoined | stone_plugin/quota/ext4quota.go:267-268 | Pieces free of the separator, joined and split again, come back unchanged. |
| GoStrings.SplitPiecesLackSep | stone_plugin/quota/ext4quota.go:267-268 | No piece of a split holds the separator. |
| GoStrings.SplitN2 | stone_plugin/quota/ext4quota.go:451 | `SplitN(s, sep, 2)` cuts at the first separator only: two pieces when one occurs, whose join gives `s` back. |
| GoStrings.Fields | stone_plugin/quota/ext4quota.go:308 | `strings.Fields` gives non-empty pieces without white space. |
| GoStrings.FieldsOfUnwords | stone_plugin/quota/ext4quota.go:308 | Splitting blank-separated words into fields gives the words back. |
| GoStrings.FieldsOfUnwordsThen | stone_plugin/quota/ext4quota.go:308 | Blank-separated words followed by a blank-led tail split into the words, then the tail's fields. |
| GoStrings.FieldsOfTrimSpace | stone_plugin/quota/ext4quota.go:308 | `Fields(TrimSpace(s))` is `Fields(s)`. |
| GoStrings.TrimSpace | stone_plugin/quota/ext4quota.go:400 | The result neither starts nor ends with white space. |
| GoStrconv.ParseFormatInt | docker-disk/disk.go:77-103 | `ParseInt(FormatInt(v))` gives every 64-bit `v` back. |
| GoStrconv.ToUint32 | stone_plugin/quota/ext4quota.go:196 | `uint32(v)` keeps the low 32 bits, and leaves any value below 2^32 unchanged. |
| GoStrconv.ToInt64 | stone_plugin/plugin_unix.go:178-189 | Go's int64 arithmetic: the result lies in [-2^63, 2^63) and equals any value already in that range. |
| GoStrconv.ToInt64Add | stone_plugin/plugin_unix.go:186-187 | Wrapping after each `+=` gives the wrap of the whole sum. |
| GoStrconv.ParseIntIn | stone_plugin/plugin_unix.go:102 | `ParseInt` succeeds exactly on an optionally signed decimal inside the range, with its value. A non-decimal is a syntax error, and an out-of-range value is a range error at the nearer bound. |
| GoStrconv.ParseUint64 | stone_plugin/quota/ext4quota.go:405 | `ParseUint` succeeds exactly on unsigned decimals below 2^64, with their value. A sign is a syntax error. |
| GoStrconv.ParseBool | stone_plugin/plugin_unix.go:122 | `ParseBool` accepts exactly Go's twelve spellings, and is true exactly for the six true ones. |
| GoStrconv.FormatNat | stone_plugin/quota/ext4quota.go:299-300 | `FormatUint(n, 10)` is a string of digits whose decimal value is `n`. |
| GoPath.DirOfJoin | stone_plugin/volume/local_volume/local_volume.go:66-67 | `Dir` takes off exactly the element that `Join` put on, and joining keeps the path clean. |
| GoPath.JoinDistinct | stone_plugin/volume/local_volume/local_volume.go:66 | Different elements joined to one directory give different paths, and neither path lies inside the other. |
| Options.Lookup | stone_plugin/plugin_unix.go:126-128 | A missing key reads as "", a present key as its value. |
| Options.ValidateOpts | stone_plugin/plugin_unix.go:81-88 | The map passes exactly when every key is one of diskId, fsType, mediaType, size, ioClass and exclusive, so an empty map passes. A failure names some key outside that set. |
| Options.ExclusiveOpt | stone_plugin/plugin_unix.go:120-123 | `exclusive` is false when absent and true when present but empty. Otherwise it is `ParseBool`'s answer, and false when that fails. |
| Options.SetOpts | stone_plugin/plugin_unix.go:90-133 | An invalid key is an error. So is a size or io class that is not a 64-bit decimal. Success happens exactly when the keys are valid and both numbers parse. The result carries the parsed numbers, or the defaults 10 and 0, and copies the three strings. |
| Options.DefaultsOfEmptyOpts | stone_plugin/plugin_unix.go:92-118 | An empty map gives the defaults: no disk id, size 10, io class 0, not exclusive. |
| Placement.SumOnPick | stone_plugin/plugin_unix.go:181-189 | The volumes' sum of sizes (or io classes) on a disk does not depend on the order in which the map is walked. |
| Placement.CandidatesQualify | stone_plugin/plugin_unix.go:169-213 | The candidates are exactly the inventory disks that pass the filters, in inventory order. The capacity filter compares the int64-wrapped `Size - usedSize` with the request. |
| Placement.SizeScores | stone_plugin/plugin_unix.go:196-199 | Every candidate scores its size less the sizes of the volumes on it, each sum and the difference wrapped to int64. |
| Placement.IoScores | stone_plugin/plugin_unix.go:201-211 | Every candidate scores the sum of its volumes' io classes, doubled on HDD, with the sum and the doubling wrapped to int64. |
| Placement.Insert | stone_plugin/plugin_unix.go:142-145 | Inserting into a list sorted by score keeps it sorted and adds exactly the new entry. |
| Placement.SortByScore | stone_plugin/plugin_unix.go:216-217 | The sorted list is ascending by score and a permutation of its input. |
| Placement.IdCountSort | stone_plugin/plugin_unix.go:216-217 | Sorting neither adds nor drops the entries of any disk. |
| Placement.Tally | stone_plugin/plugin_unix.go:178-189 | A disk is blocked exactly when the request is exclusive and some volume is on the disk, or some exclusive volume is on it. Otherwise the totals are the sums of size and io class over the disk's volumes, wrapped to int64; adding in any map order with a wrap after each `+=` gives that. |
| Placement.Consider | stone_plugin/plugin_unix.go:170-194 | One disk qualifies exactly when it passes the fsType, mediaType, exclusivity and capacity filters. Its scores are then its remaining capacity and IO load, with Go's int64 wrap on the difference and the doubling. |
| Placement.Scan | stone_plugin/plugin_unix.go:168-213 | The filtering loop yields the candidates and both score lists. |
| Placement.RankOf | stone_plugin/plugin_unix.go:225-236 | The loop computes the sum of a disk's positions in a ranked list, skipping zero scores when asked. |
| Placement.Select | stone_plugin/plugin_unix.go:220-241 | With starting ceiling 100000, the result is the first candidate of strictly minimal total rank. There is no result exactly when every total rank reaches the ceiling. |
| Placement.NamedDisk | stone_plugin/plugin_unix.go:153-160 | The result is the first inventory disk with the requested id. When no disk has it, the result is the "Not found the disk with input diskId" error. |
| Placement.BestScoredDisk | stone_plugin/plugin_unix.go:162-245 | A chosen disk is in the inventory, passes every filter, and is the selection. "sorry, no disk suit." is returned exactly when no candidate scores below the ceiling. |
| Placement.ChooseDisk | stone_plugin/plugin_unix.go:147-246 | An inventory error is returned as is. A named disk is looked up without scoring. Otherwise the result is the best scored disk. |
| Placement.TightestFitRanksFirst | stone_plugin/plugin_unix.go:191-217 | The first capacity rank goes to the candidate with the least room left. |
| Placement.RankSumBound | stone_plugin/plugin_unix.go:222-236 | A disk with at most one entry ranks between 0 and the last position, and a disk with no entry ranks 0. |
| Placement.IdCountOfUnique | stone_plugin/plugin_unix.go:196-212 | Score lists built from disks with distinct ids hold each id at most once. |
| Placement.TotalRankBound | stone_plugin/plugin_unix.go:222-236 | With distinct ids a disk's total rank is at most twice the last position. |
| Placement.FirstMinimumExists | stone_plugin/plugin_unix.go:237-241 | A non-empty candidate list has a first entry of minimal total rank. |
| Placement.OverfullDiskQualifies | stone_plugin/plugin_unix.go:178-194 | Two volumes of 2^63 - 1 bytes on a 100-byte disk wrap the used size to -2, so the disk has 102 bytes left and passes a 10-byte request. |
| Placement.SomeCandidateIsChosen | stone_plugin/plugin_unix.go:220-245 | With distinct ids and at most 50000 candidates, a disk is always chosen when some disk qualifies. |
| LocalVolume.FreshPaths | stone_plugin/volume/local_volume/local_volume.go:55-67 | The volume directory is `<mount>/stone_volume/<name>` and the data directory is `_data` inside it. The record copies the disk id, size, io class and exclusivity, and starts unmounted. |
| LocalVolume.CountersStayConsistent | stone_plugin/volume/local_volume/local_volume.go:166-185 | Starting from the zero value, "mounted exactly while the count is above 0" survives any mount short of 2^64 and any unmount of a mounted volume. |
| LocalVolume.UnmountUndoesMount | stone_plugin/volume/local_volume/local_volume.go:166-185 | An unmount after a mount restores the count and the flag. |
| LocalVolume.UnmountAtZeroWraps | stone_plugin/volume/local_volume/local_volume.go:177-185 | An unmount of an unmounted volume wraps the uint64 count to 2^64 - 1. |
| LocalVolume.LocalVolume.constructor | stone_plugin/volume/local_volume/local_volume.go:55-67 | A volume object holds its record, with the counters at their zero value. |
| LocalVolume.LocalVolume.Mount | stone_plugin/volume/local_volume/local_volume.go:166-174 | A mount sets the flag, counts one more mount in uint64 arithmetic and returns the data directory. |
| LocalVolume.LocalVolume.Unmount | stone_plugin/volume/local_volume/local_volume.go:177-185 | An unmount counts one less in uint64 arithmetic and clears the flag when the count reaches 0. |
| LocalVolume.FromDiskAccepts | stone_plugin/volume/local_volume/local_unix.go:29-58 | `fromDisk` returns a record exactly when three things hold: `volume.json` decodes to it, `_data` exists, and name, volume path, data path and disk id are non-empty. A missing `volume.json` is reported before anything is read. |
| LocalVolume.FromDiskOfToDisk | stone_plugin/volume/local_volume/local_unix.go:29-73 | A well-formed record written by `toDisk` next to an existing `_data` is read back unchanged. |
| LocalVolume.AllocateOnDisk | stone_plugin/volume/local_volume/local_unix.go:15-27 | An "already exists" failure becomes "volume already exists under <parent>". Other failures pass through, and success creates the directory. |
| LocalVolume.New | stone_plugin/volume/local_volume/local_volume.go:53-97 | `New`'s outcome, the commands it sends and the new quota variables are those of `Created`: make the directory, allocate a quota id (possibly the wrapped 0), set the quota, write the record, and on failure remove, as written, the parent of the volume's directory. |
| LocalVolume.CreatedRecord | stone_plugin/volume/local_volume/local_volume.go:55-67 | A created volume has the fresh record. |
| LocalVolume.CreatedWrites | stone_plugin/volume/local_volume/local_volume.go:69-95 | A created volume's directory was made, and its `volume.json` was the last thing written. |
| LocalVolume.CreatedAfterQuota | stone_plugin/volume/local_volume/local_volume.go:79-95 | A created volume had its quota set first. A non-zero allocated id is fresh and above 16777216, and is written to the data directory's attribute and given the limit of "<size>B". When the allocator wrapped to 0, the 0 stays recorded as used, and the limit still goes to a non-zero id. |
| LocalVolume.SizeStringLimit | stone_plugin/volume/local_volume/local_volume.go:80-86 | The limit a positive size gets is its whole KiB, and at least 1. |
| LocalVolume.CreatedFailsEarly | stone_plugin/volume/local_volume/local_volume.go:69-72 | A failed allocation returns the error, leaves the quota variables alone and removes nothing. |
| LocalVolume.CreatedRollsBack | stone_plugin/volume/local_volume/local_volume.go:73-95 | A failure after the directory exists returns no volume and ends, as written, by removing `Dir(volumePath)`. The write of `volume.json` is among its steps exactly when that write is what failed. |
| LocalVolume.CreatedCorrectedRollsBack | stone_plugin/volume/local_volume/local_volume.go:73-95 | With the corrected rollback, a failed `New` ends by removing the volume's own directory and removes nothing before. The result and quota variables match `Created`. |
| LocalVolume.CreatedAsRollsBack | stone_plugin/volume/local_volume/local_volume.go:73-95 | For any rollback target, a failure after the directory exists ends with that one removal. |
| LocalVolume.RollbackAsWrittenRemovesAllVolumes | stone_plugin/volume/local_volume/local_volume.go:73-77 | As written, the rollback removes `<mount>/stone_volume`, the parent of every volume on the disk. |
| LocalVolume.RollbackRemovesOnlyThisVolume | stone_plugin/volume/local_volume/local_volume.go:73-77 | The corrected rollback removes the volume's directory. That directory contains its `_data` and no other volume. |
| LocalVolume.RemovalOrder | stone_plugin/volume/local_volume/local_volume.go:99-112 | A resolution error other than "not exist" removes nothing. Otherwise the resolved path (or the parent, when the path is gone) is removed first, and the parent only after that succeeded. |
| StonePlugin.ValidNameIsElement | stone_plugin/plugin_unix.go:74-79 | A name that passes `validateName` is a single path element. |
| StonePlugin.RestoreEntriesKeyedByName | stone_plugin/plugin_unix.go:59-68 | Every restored volume is filed under the name in its record and passed `fromDisk`'s checks. |
| StonePlugin.RestoreKeyedByName | stone_plugin/plugin_unix.go:48-72 | The same holds across all disks. |
| StonePlugin.RestoreEntriesError | stone_plugin/plugin_unix.go:62-65 | An error is `fromDisk`'s error on some directory entry. |
| StonePlugin.RestoreSkipsDiskWithoutRoot | stone_plugin/plugin_unix.go:53-56 | A disk without `stone_volume` contributes nothing. |
| StonePlugin.RestoreVolumes | stone_plugin/plugin_unix.go:48-72 | The loop builds the volume objects of the restored map, or returns the first error and no map. |
| StonePlugin.Plugin.constructor | stone_plugin/stone_plugin.go:44-70 | The registry starts as the restored map. |
| StonePlugin.Plugin.Create | stone_plugin/stone_plugin.go:96-144 | An invalid name fails with the registry unchanged. An existing name answers no error and changes nothing. Any other name is handled as `CreateNew` states. |
| StonePlugin.Plugin.CreateNew | stone_plugin/stone_plugin.go:121-142 | Options `setOpts` rejects give its error (an unknown key, else "unknown format of size …", else "… of ioClass …"). An unreadable inventory gives the inventory error. A failed placement gives "Not found the disk with input diskId …" or "sorry, no disk suit.". Each of these changes neither the registry, the quota variables nor the file system. Otherwise `New` runs with the parsed size, io class and exclusivity on a disk `chooseDisk` may answer, and its outcome decides the answer and the registry. |
| StonePlugin.Plugin.Register | stone_plugin/stone_plugin.go:135-142 | The quota variables and operations are those of `New`. An error of `New` is answered with the volume name and files nothing. Success files the created volume, with the record `New` builds, under its name. |
| StonePlugin.PlacementFailsIffNoChoice | stone_plugin/plugin_unix.go:147-246 | `chooseDisk` on a read inventory fails exactly when no disk can be chosen: none has the named id, or no candidate scores below the ceiling. |
| StonePlugin.Plugin.Remove | stone_plugin/stone_plugin.go:146-170 | An absent name fails. A failed removal keeps the entry. Success deletes exactly that entry. |
| StonePlugin.Plugin.Mount | stone_plugin/stone_plugin.go:172-195 | An absent name fails. Otherwise the named volume counts a mount and answers its data path, and no other volume changes. |
| StonePlugin.Plugin.Unmount | stone_plugin/stone_plugin.go:197-218 | An absent name fails. Otherwise the named volume counts an unmount, and no other volume changes. |
| StonePlugin.Plugin.Path | stone_plugin/stone_plugin.go:220-237 | The data path is answered exactly for a registered name. Otherwise the result is the "volume not exist when do path" error. |
| StonePlugin.Plugin.Get | stone_plugin/stone_plugin.go:239-264 | The name and data path are answered exactly for a registered name. Otherwise the result is the "volume not exist when do get" error. |
| StonePlugin.Plugin.List | stone_plugin/stone_plugin.go:266-282 | The list has exactly one entry per registered volume, with its data path. |
| StonePlugin.PathAgreesWithGet | stone_plugin/stone_plugin.go:220-264 | `path` and `get` fail together, and agree on the mount point. |
| QuotaText.FormatSize | stone_plugin/quota/ext4quota.go:391-397 | The result is at least 1. It is 1 below 1024 and the whole KiB otherwise. |
| QuotaText.FormatSizeMonotone | stone_plugin/quota/ext4quota.go:391-397 | `formatSize` never shrinks when its input grows. |
| QuotaText.MatchByteSize | stone_plugin/quota/ext4quota.go:33 | The submatches of the size pattern (an optional minus and digits, then K, M, G or T with an optional B, or B alone, in either case): the only split of the string into a numeral and a unit, or none. |
| QuotaText.ToByteSize | stone_plugin/quota/ext4quota.go:399-430 | The KiB count fits in uint64; when it is 0 and what it is otherwise are the two lemmas below. |
| QuotaText.ToByteSizeZeroIff | stone_plugin/quota/ext4quota.go:399-430 | The result is 0 exactly for a string that does not name a positive count of units. |
| QuotaText.ToByteSizeScales | stone_plugin/quota/ext4quota.go:410-429 | A positive count converts to `formatSize` of count × unit, taken modulo 2^64. |
| QuotaText.ByteSuffixMatchesFormatSize | stone_plugin/tools/quota.go:290-321 | "<n>B" converts to `formatSize(n)`. |
| QuotaText.KiloSuffixRoundTrip | stone_plugin/quota/ext4quota.go:419-429 | "<n>K", "<n>kb" and the like convert back to n while n KiB fit in uint64. |
| QuotaText.NonPositiveByteCountIsZero | stone_plugin/quota/ext4quota.go:405-408 | Zero and negative counts give 0. |
| QuotaText.FirstMountLine | stone_plugin/quota/ext4quota.go:267-282 | The result is the index of the first six-field line for the device, or -1 when there is none. |
| QuotaText.MountEntry | stone_plugin/quota/ext4quota.go:273-281 | The fields of that line. |
| QuotaText.HasOption | stone_plugin/quota/ext4quota.go:276-280 | The loop finds out whether `grpquota` is among the comma-separated options. |
| QuotaText.MountCheck | stone_plugin/quota/ext4quota.go:257-286 | The first line for the device gives the mount point, the `grpquota` flag and the file-system type. An unreadable table or a missing line gives all three empty. |
| QuotaText.CheckMountpoint | stone_plugin/tools/quota.go:159-188 | The scan computes `MountCheck`. |
| QuotaText.LastSettingDefault | stone_plugin/quota/ext4quota.go:439-440 | With no `key=` option the default stands. |
| QuotaText.LastSettingWins | stone_plugin/quota/ext4quota.go:450-461 | The value is that of the last option that sets the key. |
| QuotaText.LastSettingSnoc | stone_plugin/quota/ext4quota.go:450-461 | One more option overrides exactly when it sets the key. |
| QuotaText.QuotaSettings | stone_plugin/quota/ext4quota.go:450-461 | The option loop yields the last `jqfmt=` and `grpjquota=` values, or the defaults vfsv0 and aquota.group. |
| QuotaText.QuotaSettingsOf | stone_plugin/quota/ext4quota.go:432-467 | The result is the settings of the first line for the device, or the table's read error. |
| QuotaText.GetVFSVersionAndQuotaFile | stone_plugin/tools/quota.go:323-358 | The scan computes `QuotaSettingsOf`. |
| QuotaText.QuotaFileHeader | stone_plugin/quota/ext4quota.go:153-158 | The header has 32 bytes, and byte 4 is 1 exactly for vfsv1. |
| QuotaText.RepquotaId | stone_plugin/quota/ext4quota.go:341-349 | A `#` row gives the decimal before its first blank, truncated to uint32. Any other line gives none. |
| QuotaText.UserQuotaLimit | stone_plugin/quota/ext4quota.go:305-319 | Fewer than five fields, or a fifth field that is not an unsigned decimal, is an error. Otherwise the result is the fifth field. |
| QuotaText.UserQuotaOfRow | stone_plugin/quota/ext4quota.go:305-319 | A row whose fifth field is a limit in decimal reads back as that limit. |
| QuotaText.ReportHeaderIsNotALimit | stone_plugin/quota/ext4quota.go:305-319 | Output that opens with `repquota`'s "*** Report for group quotas on device" header fails with the "error parseUint" error, because its fifth field is "quotas". |
| QuotaText.FifthWordNotANumber | stone_plugin/quota/ext4quota.go:312-317 | Output whose fifth word is not a decimal fails with the "error parseUint" error. |
| QuotaText.MatchingLines | stone_plugin/quota/ext4quota.go:307 | What a `grep` would keep: exactly the lines that contain the pattern, each of them from the input. |
| QuotaText.UserQuotaOfGrepRow | stone_plugin/quota/ext4quota.go:305-319 | When the id's row is the only report line that carries the id, the report filtered through `grep` reads back the row's limit. |
| QuotaText.FileAttrId | stone_plugin/quota/ext4quota.go:190-197 | A failed command or a non-number reads as 0. A number in int64 reads as its uint32 truncation. A number beyond int64 reads as the clamped bound cut to 32 bits: 2^32 - 1 above, 0 below. |
| QuotaText.FileAttrRoundTrip | stone_plugin/quota/ext4quota.go:190-221 | An id below 2^32 written by `setSubtree` reads back as itself. |
| QuotaCommon.StatDev | stone_plugin/quota/ext4quota.go:248-255 | `stat` gives the device of a path that exists, and an error otherwise. |
| QuotaCommon.QuotaGlobals.constructor | stone_plugin/quota/ext4quota.go:27-34 | The package variables start at their zero values. |
| QuotaCommon.QuotaGlobals.LoadQuotaIds | stone_plugin/quota/ext4quota.go:332-359 | Every id of (lo, hi] in the report gets count 1, and the largest of them, or lo, is returned. A failed command changes nothing and returns lo. |
| QuotaCommon.QuotaGlobals.NextQuotaId | stone_plugin/quota/ext4quota.go:362-389 | The loop loads on first use, then returns the result of `Allocate`: the id, the error, the new cursor and the new id counts. The ext4 and tools loops (stone_plugin/tools/quota.go:264-288) are both covered, and the mount memo and the command log are unchanged. |
| QuotaCommon.QuotaGlobals.CreateQuotaFile | stone_plugin/quota/ext4quota.go:149-173 | The missing quota file is created by these commands, and removed again when grace or limit setting fails. |
| QuotaCommon.QuotaGlobals.DriverStart | stone_plugin/quota/ext4quota.go:119-187 | The bootstrap's mount point, error, memo and commands are those of `Started`. |
| QuotaCommon.QuotaGlobals.Bootstrap | stone_plugin/quota/ext4quota.go:136-186 | These are the steps for a device not in the memo. |
| QuotaCommon.QuotaGlobals.RemountAndEnable | stone_plugin/quota/ext4quota.go:140-142 | A remount is sent only when `grpquota` is missing. |
| QuotaCommon.QuotaGlobals.SettleQuota | stone_plugin/quota/ext4quota.go:144-147 | A failure to read the settings is returned, and the memo stays unchanged. |
| QuotaCommon.QuotaGlobals.EnableQuota | stone_plugin/quota/ext4quota.go:149-186 | The quota file is created when missing, then `quotaon` is run. |
| QuotaCommon.QuotaGlobals.TurnQuotaOn | stone_plugin/quota/ext4quota.go:175-186 | `quotaon` is sent unless quota is on. The device enters the memo with "" when `quotaon` fails. |
| QuotaCommon.QuotaGlobals.SetSubtree | stone_plugin/quota/ext4quota.go:200-221 | The binding is that of `Subtree`. |
| QuotaCommon.RowId | stone_plugin/quota/ext4quota.go:341-355 | A line contributes its id exactly when it is a `#` row with an id in (lo, hi]. |
| QuotaCommon.ReportIds | stone_plugin/quota/ext4quota.go:339-356 | Every recorded id lies in (lo, hi]. |
| QuotaCommon.ScanReport | stone_plugin/quota/ext4quota.go:339-356 | The loop marks the in-range ids used and returns the largest of them, or lo. |
| QuotaCommon.MarkUsedContents | stone_plugin/quota/ext4quota.go:351 | Marking keeps the old ids and adds exactly the recorded ones, each with count 1. |
| QuotaCommon.MaxIdBounds | stone_plugin/quota/ext4quota.go:352-354 | The loader's result bounds every recorded id, and is one of them or lo. |
| QuotaCommon.ReportIdsExact | stone_plugin/quota/ext4quota.go:340-356 | An id is recorded exactly when some line is a `#` row with that id in (lo, hi]. |
| QuotaCommon.NextId | stone_plugin/quota/ext4quota.go:375-381 | A probe gives the successor inside the range, and lo + 1 after hi or below lo. |
| QuotaCommon.Search | stone_plugin/quota/ext4quota.go:373-385 | A found id lies in (lo, hi] and is not in use. |
| QuotaCommon.SearchFailsOnlyWhenFull | stone_plugin/quota/ext4quota.go:373-385 | Hi - lo probes fail only when every id of the range is in use. |
| QuotaCommon.SearchNeverEndsWhenFull | stone_plugin/quota/ext4quota.go:374-385 | With the range full, no number of probes finds an id: the loop as written never ends. |
| QuotaCommon.SearchStable | stone_plugin/quota/ext4quota.go:374-385 | More probes find the same id. |
| QuotaCommon.Load | stone_plugin/quota/ext4quota.go:332-359 | After a load the cursor is lo or an id of (lo, hi]. |
| QuotaCommon.WrapStep | stone_plugin/tools/quota.go:276-280 | One turn of the tools loop stays below 2^32, and gives an id above lo or the wrapped 0. |
| QuotaCommon.SearchWrap | stone_plugin/tools/quota.go:274-284 | An id found by the tools loop is not in use, and is above lo or 0. |
| QuotaCommon.SearchWrapIsSearch | stone_plugin/tools/quota.go:274-284 | The tools loop is the folding search over (lo, 2^32], with 2^32 read as the uint32 0. Both find an id or both fail, and the ids agree. |
| QuotaCommon.SearchWrapFailsOnlyWhenFull | stone_plugin/tools/quota.go:274-284 | One full turn of the tools loop fails only when 0 and every id of (lo, 2^32 - 1] are in use. |
| QuotaCommon.SearchWrapNeverEndsWhenFull | stone_plugin/tools/quota.go:274-285 | With 0 and every id above lo in use, no number of turns finds an id: the tools loop as written never ends. |
| QuotaCommon.ProbeFolding | stone_plugin/quota/ext4quota.go:373-385 | The ext4 loop, cut off after one turn, computes the folding `Search`. |
| QuotaCommon.ProbeWrapping | stone_plugin/tools/quota.go:274-284 | The tools loop, cut off after one turn, computes `SearchWrap`. |
| QuotaCommon.FirstFree | stone_plugin/quota/ext4quota.go:373-385 | An id found is not in use, and lies in (lo, hi] or is 0 with hi = 2^32 - 1. |
| QuotaCommon.FirstFreeFailsOnlyWhenFull | stone_plugin/tools/quota.go:274-284 | A full turn fails only when every id of (lo, hi] is in use, and 0 too when hi = 2^32 - 1. |
| QuotaCommon.LiftSetMembers | stone_plugin/tools/quota.go:276-280 | Reading 0 as 2^32 keeps membership of every uint32 id. |
| QuotaCommon.AllocateFresh | stone_plugin/quota/ext4quota.go:362-389 | A success returns an id that was not in use, records it with count 1 and makes it the cursor. The id lies in (lo, hi], or is the 0 that the tools loop wraps to. Failure returns 0, and happens only when the load fails or every id the loop reaches (0 included for tools) is in use. |
| QuotaCommon.AllocateTwiceDistinct | stone_plugin/quota/ext4quota.go:362-389 | Two successive allocations return different ids. |
| QuotaCommon.FailedLoadIsNotRetried | stone_plugin/quota/ext4quota.go:366-372 | A failed load still sets the cursor to lo, so the report is never read again. |
| QuotaCommon.SubtreeBinds | stone_plugin/quota/ext4quota.go:200-221 | Id 0 keeps an existing binding and writes nothing. An explicit id is written and returned, and nothing is allocated. For an unbound directory, a failed allocation returns 0 and writes nothing. A successful one returns the allocated id, which is fresh and may be the wrapped 0 of the tools loop, and writes it to the attribute. |
| QuotaCommon.QuotaFileCommands | stone_plugin/quota/ext4quota.go:149-173 | Only the header is written, to the quota file. The steps fail exactly when a write, the grace setting or the default limit fails. |
| QuotaCommon.Enable | stone_plugin/quota/ext4quota.go:149-186 | The memo gains at most this device. Its mount point is "" exactly on a failure of `quotaon`. A header is written only where the quota file is missing. |
| QuotaCommon.StartedFromMemo | stone_plugin/quota/ext4quota.go:132-134 | A device in the memo is answered from it, with no command sent. |
| QuotaCommon.StartedIdempotent | stone_plugin/quota/ext4quota.go:119-187 | The bootstrap only adds its own device to the memo, and a second call answers the same without sending anything. |
| QuotaCommon.StartedFailureIsRemembered | stone_plugin/quota/ext4quota.go:176-186 | A failed `quotaon` memoises "" for the device, and every later call returns "" without error. |
| QuotaCommon.StartedHeader | stone_plugin/quota/ext4quota.go:149-163 | A header is written only for a missing quota file, under the configured name, with byte 4 equal to 1 exactly for vfsv1. |
| Ext4Quota.Ext4StepIsNextId | stone_plugin/quota/ext4quota.go:375-381 | The loop step `id++`, wrapped by `id % max + min`, is the probe over (20971521, 23068672]. |
| Ext4Quota.NewExt4QuotaControl | stone_plugin/quota/ext4quota.go:38-48 | The constructor fails exactly when the bootstrap does. |
| Ext4Quota.SetUserQuotaCmd | stone_plugin/quota/ext4quota.go:298-303 | One `setquota` for the id, the limit and the mount point is sent. |
| Ext4Quota.ApplyLimitTo | stone_plugin/quota/ext4quota.go:59-82 | The outcome and new state are those of `ApplyLimit`. |
| Ext4Quota.SetQuota | stone_plugin/quota/ext4quota.go:54-83 | The limit applied is `formatSize(size)`. |
| Ext4Quota.RemoveQuotaAsWritten | stone_plugin/quota/ext4quota.go:111-117 | As written, this is `SetQuota` with size 0. |
| Ext4Quota.RemoveQuota | stone_plugin/quota/ext4quota.go:111-117 | As corrected, the limit applied is 0. |
| Ext4Quota.GetQuota | stone_plugin/quota/ext4quota.go:85-109 | The outcome and new state are those of `ReadLimit`, which parses `repquota`'s whole output. |
| Ext4Quota.IsDiskQuotaExist | stone_plugin/quota/ext4quota.go:223-246 | The outcome and new state are those of `QuotaIdSeen`. |
| Ext4Quota.ApplyLimitReusesBoundId | stone_plugin/quota/ext4quota.go:67-82 | A bound directory keeps its id. The one command after the bootstrap sets the limit for that id on the mount point found. |
| Ext4Quota.ApplyLimitBindsFreshId | stone_plugin/quota/ext4quota.go:67-82 | An unbound directory gets a fresh id, which is written to the attribute and then given the limit. Failure happens only on a failed load or a full range. |
| Ext4Quota.ApplyLimitNeedsMountPoint | stone_plugin/quota/ext4quota.go:59-65 | No limit is sent before the bootstrap found a mount point. |
| Ext4Quota.RemoveQuotaAsWrittenCapsAtOneKiB | stone_plugin/quota/ext4quota.go:111-117 | As written, `RemoveQuota` sets a hard limit of 1 KiB. |
| Ext4Quota.RemoveQuotaLiftsLimit | stone_plugin/quota/ext4quota.go:111-117 | As corrected, `RemoveQuota` sends limit 0, which means no limit. |
| Ext4Quota.GetQuotaReadsReportHeader | stone_plugin/quota/ext4quota.go:85-109 | As written, after `SetQuota` succeeded, `GetQuota` fails with "error parseUint" whenever `repquota` prints its report header first, whatever limit was set. |
| Ext4Quota.GetQuotaPipedReadsBackSetQuota | stone_plugin/quota/ext4quota.go:85-109 | With the output filtered through `grep` as intended, after `SetQuota` and with the id's row as the only line carrying the id, `GetQuota` returns `formatSize(size)` without a second bootstrap. |
| Ext4Quota.GetQuotaUnbound | stone_plugin/quota/ext4quota.go:90-94 | A path with no bound id gives "quota not found" and changes nothing. |
| Ext4Quota.QuotaIdSeenTwiceIsDuplicate | stone_plugin/quota/ext4quota.go:235-245 | An id in use is counted on its first check and reported as a duplicate on the second. An unused id is absent and changes nothing. |
| ToolsQuota.AllocateWrapsToZero | stone_plugin/tools/quota.go:264-288 | From the cursor 2^32 - 1, the step gives 0, and with 0 unused `GetNextQuatoId` returns 0, records it and leaves the cursor at 0. |
| ToolsQuota.MinusOneRowAllocatesZero | stone_plugin/tools/quota.go:234-288 | The row `#-1` loads as 4294967295, and the first allocation after that load returns 0. |
| ToolsQuota.NextFreeCorrected | stone_plugin/tools/quota.go:264-288 | The corrected search returns only unused ids of (16777216, 2^32 - 1], never 0, and fails only when all of them are in use. |
| ToolsQuota.SetDiskQuota | stone_plugin/tools/quota.go:128-148 | The outcome and new state are those of `DiskQuotaSet`, which takes the id as `uint32(quotaId)` and fails with "subtree not found" whenever the binding returns 0. |
| ToolsQuota.DiskQuotaSetWithId | stone_plugin/tools/quota.go:141-147 | An explicit id is written and then given the limit `toByteSize(size)`, and nothing is allocated. |
| ToolsQuota.DiskQuotaSetKeepsBinding | stone_plugin/tools/quota.go:105-116 | With id 0 a bound directory keeps its id, and the limit is sent for it. |
| ToolsQuota.DiskQuotaSetWithoutId | stone_plugin/tools/quota.go:105-147 | With id 0, an unbound directory gets the allocated id. A fresh non-zero id is written, recorded and limited. The wrapped id 0 is written and recorded, but the call then fails with "subtree not found" and no limit is set. A failed allocation fails the same way, with nothing sent. |
| ToolsQuota.DiskQuotaSetMalformedSize | stone_plugin/tools/quota.go:146-147 | A malformed size sends limit 0, which means no limit. |
| QuotaRegistry.Registered | stone_plugin/quota/quota.go:27-34 | Exactly "bare", "xfs" and "ext4" are registered. |
| QuotaRegistry.Registry.constructor | stone_plugin/quota/quota.go:33 | The cache starts empty. |
| QuotaRegistry.Registry.NewQuota | stone_plugin/quota/quota.go:37-58 | The cache and the result are those of `Selected`. |
| QuotaRegistry.SelectedCached | stone_plugin/quota/quota.go:38-42 | A cached control of the format is returned, and nothing is built. |
| QuotaRegistry.SelectedBuilds | stone_plugin/quota/quota.go:43-57 | A registered format is built and stored, replacing a control of another format. A constructor error is returned with the cache unchanged. An unknown format stores the bare control. |
| QuotaRegistry.SelectedTwice | stone_plugin/quota/quota.go:37-58 | Asking twice is asking once. |
| QuotaRegistry.SelectedLocal | stone_plugin/quota/quota.go:37-58 | Other base paths are never touched. |
| BareQuota.NewBareQuotaControl | stone_plugin/quota/barequota.go:5-7 | The constructor never fails. |
| BareQuota.Name | stone_plugin/quota/barequota.go:9-11 | The name is "bare". |
| BareQuota.SetQuota | stone_plugin/quota/barequota.go:13-15 | The call always succeeds. |
| BareQuota.GetQuota | stone_plugin/quota/barequota.go:17-19 | The size is always 0, with no error. |
| BareQuota.RemoveQuota | stone_plugin/quota/barequota.go:21-23 | The call always succeeds. |
| BareQuota.BareForgetsLimits | stone_plugin/quota/barequota.go:13-23 | Any limit set reads back as 0, and no call fails. |
| DockerDisk.ParseDf | docker-disk/disk.go:46-115 | The parser's result is `ParsedDf` of the output. |
| DockerDisk.ParsedDfOutcomes | docker-disk/disk.go:46-115 | A failed command with no output is its own error. Fewer than two lines is "not output result". No good row is "not right result". A success has rows. |
| DockerDisk.DfRowsAppend | docker-disk/disk.go:62-104 | Rows keep the order of their lines. |
| DockerDisk.DfRowsSkipsBadLine | docker-disk/disk.go:65-103 | A line that does not parse contributes nothing, wherever it stands. |
| DockerDisk.DfRowsAreWords | docker-disk/disk.go:65-104 | The text fields of every row are single words. |
| DockerDisk.PercentCell | docker-disk/disk.go:96-100 | The `Use%` field loses exactly its `%`. |
| DockerDisk.CellsAreWords | docker-disk/disk.go:65-69 | The fields of a printable row are words. |
| DockerDisk.DfLineOfRowLine | docker-disk/disk.go:65-104 | The line `df` prints for a row parses back to that row. |
| DockerDisk.DfRowsOfRowLines | docker-disk/disk.go:62-104 | A body of printed rows parses back to those rows. |
| DockerDisk.ParsedDfOfTable | docker-disk/disk.go:46-115 | A title plus printed rows parses to exactly those rows, in order. |
| DockerDisk.SplitTable | docker-disk/disk.go:55 | The table's text splits back into its title and its rows. |
| DockerDisk.SkipMountedPathOfWord | docker-disk/disk.go:251-259 | On a word the filter holds exactly for "/". |
| DockerDisk.SkipFilesystemRule | docker-disk/disk.go:261-275 | The filter holds for `/dev/rbd<n>` and for no name outside `/dev/rbd`. |
| DockerDisk.FlagType | docker-disk/disk.go:132-136 | "0" is SSD and "1" is HDD; anything else has no type. |
| DockerDisk.DeviceFlagsRead | docker-disk/disk.go:143-151 | The flags cover exactly the listed devices, each with its trimmed type. A failure is some device's failure. |
| DockerDisk.ReadDeviceFlags | docker-disk/disk.go:143-151 | The loop computes `DeviceFlags`. |
| DockerDisk.DeviceFlagsErrorStays | docker-disk/disk.go:145-148 | A failing prefix makes the whole listing fail. |
| DockerDisk.Classify | docker-disk/disk.go:184-189 | The type is that of a listed device whose name occurs in the file system, or "unknown" when none does. |
| DockerDisk.Collect | docker-disk/disk.go:131-217 | The first failing command is the error. Otherwise there is one disk per row that survives the filters, in order. Mount points are compared with the raw `readlink -f` output. |
| DockerDisk.CollectTrimmed | docker-disk/disk.go:131-217 | The same, with mount points compared with the trimmed `readlink -f` output. |
| DockerDisk.CollectFrom | docker-disk/disk.go:131-217 | The loop and checks of `Collect`, for either boot path. |
| DockerDisk.BootPath | docker-disk/disk.go:153-157 | As written, the boot path is the raw `readlink -f` output. |
| DockerDisk.CollectRows | docker-disk/disk.go:169-215 | The loop builds one disk per kept row. |
| DockerDisk.KeptKeeps | docker-disk/disk.go:170-193 | Every kept row passed every filter. |
| DockerDisk.CollectedDisk | docker-disk/disk.go:170-214 | A collected disk is never on "/" or on RBD. It is on a listed device, and is of type SSD, HDD, nvme or empty. Its id is the MD5 of `fs_type_media`. |
| DockerDisk.BootSkipAsWrittenNeverFires | docker-disk/disk.go:153-173 | As written, the boot-path comparison never drops a row. |
| DockerDisk.BootPathDropped | docker-disk/disk.go:153-173 | As corrected (`CollectTrimmed`), a row on the trimmed boot path is dropped. |
| SystemCpu.AddProcessor | vendor/github.com/docker/docker/pkg/system/cpuinfo.go:109-114 | A processor is appended only when `Get` does not find it. |
| SystemCpu.AddProcessorKeeps | vendor/github.com/docker/docker/pkg/system/cpuinfo.go:109-114 | Adding keeps every processor and adds no other. |
| SystemCpu.AddCore | vendor/github.com/docker/docker/pkg/system/cpuinfo.go:82-87 | An empty core is appended only when `Get` does not find the index. |
| SystemCpu.FirstPos | vendor/github.com/docker/docker/pkg/system/cpuinfo.go:118-125 | The position is that of the first element whose key is the index, or none when no key is; `Cores.Get` keys cores by `CoreIndex`, `Sockets.Get` (lines 91-98) keys sockets by `SocketIndex`. |
| SystemCpu.GetProcessor | vendor/github.com/docker/docker/pkg/system/cpuinfo.go:129-136 | The result is the index when present, else -1. |
| SystemCpu.GetSocket | vendor/github.com/docker/docker/pkg/system/cpuinfo.go:91-98 | The result is the first socket with the index, or nil. |
| SystemCpu.GetCore | vendor/github.com/docker/docker/pkg/system/cpuinfo.go:118-125 | The result is the first core with the index, or nil. |
| SystemCpu.RemoveProcessors | vendor/github.com/docker/docker/pkg/system/cpuinfo.go:138-149 | The result is the processors not named, in order, and the input is unchanged. |
| SystemCpu.WithoutMembers | vendor/github.com/docker/docker/pkg/system/cpuinfo.go:138-149 | What is left is exactly the processors not named. |
| SystemCpu.WithoutAppend | vendor/github.com/docker/docker/pkg/system/cpuinfo.go:138-149 | Order is kept. |
| SystemCpu.WithoutNothing | vendor/github.com/docker/docker/pkg/system/cpuinfo.go:138-149 | Removing nothing keeps everything. |
| SystemCpu.CpuInfo.constructor | vendor/github.com/docker/docker/pkg/system/cpuinfo_linux.go:21-22 | The topology starts with no sockets and no processors. |
| SystemCpu.CpuInfo.AddSocket | vendor/github.com/docker/docker/pkg/system/cpuinfo.go:12-17 | The sockets become `WithSocket` of the old ones. |
| SystemCpu.WithSocket | vendor/github.com/docker/docker/pkg/system/cpuinfo.go:12-17 | An empty socket is appended only when the index is absent. |
| SystemCpu.CpuInfo.IsProcessorInSameSocket | vendor/github.com/docker/docker/pkg/system/cpuinfo.go:19-42 | The scan computes the answer of `SameSocket`. |
| SystemCpu.CpuInfo.IsProcessorInSameCore | vendor/github.com/docker/docker/pkg/system/cpuinfo.go:44-71 | The scan computes the answer of `SameCore`. |
| SystemCpu.SameSocketMeaning | vendor/github.com/docker/docker/pkg/system/cpuinfo.go:19-42 | On a well-formed topology the answer is true exactly for two different present processors on one socket. |
| SystemCpu.SameCoreMeaning | vendor/github.com/docker/docker/pkg/system/cpuinfo.go:44-71 | The answer is true exactly for two different present processors on the same core index of the same socket. |
| SystemCpu.NeverSameAsItself | vendor/github.com/docker/docker/pkg/system/cpuinfo.go:27-36 | Asked about x and x, both queries answer false. |
| SystemCpu.ProcessorAddedOnce | vendor/github.com/docker/docker/pkg/system/cpuinfo.go:109-114 | Adding twice is adding once, bar -1. |
| SystemCpu.CoreAddedOnce | vendor/github.com/docker/docker/pkg/system/cpuinfo.go:82-87 | Adding twice is adding once, and no core index is doubled. |
| SystemCpu.SocketAddedOnce | vendor/github.com/docker/docker/pkg/system/cpuinfo.go:12-17 | Adding twice is adding once, and no socket index is doubled. |
| SystemCpuExamples.SameSocketCases | vendor/github.com/docker/docker/pkg/system/cpuinfo_test.go:38-46 | The test's cases on the two-socket, six-core topology hold. |
| SystemCpuExamples.SameSocketSmallCase | vendor/github.com/docker/docker/pkg/system/cpuinfo_test.go:48-52 | The test's case on the smaller topology holds. |
| SystemCpuExamples.SameCoreCases | vendor/github.com/docker/docker/pkg/system/cpuinfo_test.go:58-70 | The test's same-core cases hold. |
| SystemCpuExamples.OtherCoreCases | vendor/github.com/docker/docker/pkg/system/cpuinfo_test.go:62-78 | The test's different-core cases hold. |
| SystemCpuExamples.RemoveCases | vendor/github.com/docker/docker/pkg/system/cpuinfo_test.go:6-13 | The test's remove case holds. |
| SystemCpuExamples.RemoveFrontCases | vendor/github.com/docker/docker/pkg/system/cpuinfo_test.go:6-13 | Removing one core's processors from the front works. |
| SystemCpuExamples.RemoveNothingCase | vendor/github.com/docker/docker/pkg/system/cpuinfo_test.go:15-21 | Removing nothing keeps everything. |
| SystemCpuParse.ParseCpuInfo | vendor/github.com/docker/docker/pkg/system/cpuinfo_linux.go:20-66 | The topology or error is that of `ParsedCpuInfo` of the lines. |
| SystemCpuParse.ScanLine | vendor/github.com/docker/docker/pkg/system/cpuinfo_linux.go:31-58 | One line updates the state as `Step` says. |
| SystemCpuParse.RecordCurrent | vendor/github.com/docker/docker/pkg/system/cpuinfo_linux.go:53-57 | A blank line records through `AddSocket`, `Get`, `AddCore`, `Get` and `AddProcessor`. |
| SystemCpuParse.CountsProcessorLines | vendor/github.com/docker/docker/pkg/system/cpuinfo_linux.go:47-52 | `Processors` counts the "processor" lines. |
| SystemCpuParse.FailsOnBadValue | vendor/github.com/docker/docker/pkg/system/cpuinfo_linux.go:37-51 | The parse fails exactly on a value that is not a 16-bit decimal, or on a scanner error. |
| SystemCpuParse.OtherKeysIgnored | vendor/github.com/docker/docker/pkg/system/cpuinfo_linux.go:36-58 | Other keys change nothing. |
| SystemCpuParse.PlaceOnCoresAt | vendor/github.com/docker/docker/pkg/system/cpuinfo.go:82-114 | The processor goes to the first core with the index, or into a new core. |
| SystemCpuParse.RecordThroughGets | vendor/github.com/docker/docker/pkg/system/cpuinfo_linux.go:53-57 | The recursive record is what the `Get` chain does. |
| SystemCpuParse.RecordKeeps | vendor/github.com/docker/docker/pkg/system/cpuinfo_linux.go:53-57 | Recording keeps earlier processors in place. |
| SystemCpuParse.RecordPlaces | vendor/github.com/docker/docker/pkg/system/cpuinfo_linux.go:53-57 | The processor sits on the current core of the current socket. |
| SystemCpuParse.RecordIndexed | vendor/github.com/docker/docker/pkg/system/cpuinfo_linux.go:53-57 | Recording never doubles an index. |
| SystemCpuParse.ParsedIsIndexed | vendor/github.com/docker/docker/pkg/system/cpuinfo_linux.go:20-66 | A parsed topology has unique indices. |
| SystemCpuParse.BlankLineRecords | vendor/github.com/docker/docker/pkg/system/cpuinfo_linux.go:53-57 | A blank line's record survives the rest of the scan. |
| SystemCpuParse.PlaceOnCoresOnly | vendor/github.com/docker/docker/pkg/system/cpuinfo.go:82-114 | After adding a processor, every processor on a core was on a core with that index before, or is the one added. |
| SystemCpuParse.RecordOnly | vendor/github.com/docker/docker/pkg/system/cpuinfo_linux.go:53-57 | A record adds only the current triple: every placed triple was placed before, or is that triple. |
| SystemCpuParse.ScannedOnly | vendor/github.com/docker/docker/pkg/system/cpuinfo_linux.go:30-59 | Every triple placed at the end of a scan was placed at its start, or was the current triple at a blank line of the scan. |
| SystemCpuParse.PlacedByBlankLine | vendor/github.com/docker/docker/pkg/system/cpuinfo_linux.go:20-66 | Every processor in a parsed topology comes from a blank line, scanned to with that socket, core and processor. Together with `BlankLineRecords` this is an if-and-only-if. |
| SystemCpuParse.ScannedSplit | vendor/github.com/docker/docker/pkg/system/cpuinfo_linux.go:30-59 | Scanning runs line by line. |
| SystemDisk.Lookup | vendor/github.com/docker/docker/pkg/system/diskinfo.go:19-26 | The result is the first entry on the mount point, or nil exactly when none matches. |
| SystemDisk.LookupIgnoresLater | vendor/github.com/docker/docker/pkg/system/diskinfo.go:20-24 | Entries after the first match do not matter. |
| SystemDiskExamples.LookupCases | vendor/github.com/docker/docker/pkg/system/diskinfo.go:19-26 | The first duplicate is found, and an unknown mount point is nil. |
| SystemDisk.ParseSize | vendor/github.com/docker/docker/pkg/system/diskinfo_linux.go:26-37 | `ParseInt(s, 10, 0)` accepts exactly the 64-bit decimals. |
| SystemDisk.ReadDisksInfo | vendor/github.com/docker/docker/pkg/system/diskinfo_linux.go:9-43 | A failed `df` is its error. Otherwise the result is `ReadDisks` of the output. |
| SystemDisk.ReadLine | vendor/github.com/docker/docker/pkg/system/diskinfo_linux.go:17-39 | One line is handled as `DiskLine` says. |
| SystemDisk.ErrorsAreSticky | vendor/github.com/docker/docker/pkg/system/diskinfo_linux.go:26-37 | After a failure, later lines change nothing. |
| SystemDisk.DisksOfAppend | vendor/github.com/docker/docker/pkg/system/diskinfo_linux.go:39 | Entries keep line order. |
| SystemDisk.BadLineAborts | vendor/github.com/docker/docker/pkg/system/diskinfo_linux.go:26-37 | One unparsable six-field line fails the whole call. |
| SystemDisk.EntriesAreRows | vendor/github.com/docker/docker/pkg/system/diskinfo_linux.go:16-40 | There is one entry per six-field line, and each is what its line parses to. |
| SystemDisk.HeaderSkipped | vendor/github.com/docker/docker/pkg/system/diskinfo_linux.go:17-20 | The title line is skipped. |
| SystemDisk.DiskLineOfCells | vendor/github.com/docker/docker/pkg/system/diskinfo_linux.go:22-39 | A printed line reads back as its entry. |
| SystemDisk.ReadDisksOfTable | vendor/github.com/docker/docker/pkg/system/diskinfo_linux.go:9-43 | A printed table reads back as exactly its entries, in order. |

## Left out

- External commands and operating-system calls are inputs: command outputs and exit statuses, `stat` results, directory listings, file contents and write outcomes. The commands a call sends are recorded as values. The bytes written to the quota file are kept as the header value.
- Locks (`ext4lock`, `lock`, the plugin's and the volume's mutexes) are left out. Every operation runs alone.
- HTTP and JSON plumbing of the handlers is left out. A handler takes the decoded name and returns the `Err` string (or mount point).
- JSON encoding of `volume.json` is modelled as the record value itself, or as an undecodable or unreadable file.
- MD5 (`Md5sum`) is an input function.
- The volume-name regex of docker's `RestrictedVolumeNamePattern` is written out as its character classes, `^[a-zA-Z0-9][a-zA-Z0-9_.-]+$`.
- The regular-expression engine of `toByteSize` is replaced by the grammar it accepts.
- `UseQuota` is always true in the code shown, so the early returns taken when it is false are not modelled.
- `fmt` formatting (`%q`, `%v`) of error messages is approximated by concatenation.
- Go references (`*T`) are modelled as positions (`Get` answers), as values (`DiskInfo`), or as class references (volumes).
- `parseCpuInfo` on a known key with no ':' would index past the split and panic. The model requires such lines not to occur.
- The `/proc/cpuinfo` scanner is a list of lines plus the scanner's error.
- `strconv.ParseInt(s, 10, 0)` uses a 64-bit `int`.
- The map iteration order of Go is not modelled. `Classify` states only that the type comes from some matching device. `List` and `ValidateOpts` state their result for any order. The sum of volume sizes is shown not to depend on order.
- `ParseUint(items[4], 10, 0)` in `getUserQuota` is read as 64-bit.
- SortByScore: Go's `sort.Sort` is modelled as a stable insertion sort. Go orders the scores the same way, but keeps ties in list order only up to 12 entries since Go 1.19 (up to 6 entries in earlier versions, whose gap-6 pass may swap past equal scores); on longer lists the ranks of disks with equal scores may differ from the model.
- QuotaCommon.Search: the ext4 id loop is cut off after a number of probes. `NextQuotaId` uses hi - lo probes, which covers the whole range. When the range is full, the loop as written does not end (see Findings).
- QuotaCommon.SearchWrap: the tools id loop is cut off after a number of probes. `NextQuotaId` uses one full turn of 2^32 - lo probes, 0 included. When every id is in use, the loop as written does not end.
- Ext4Quota.ReadLimit: the output of `repquota` run with the extra arguments `|`, `grep` and the id is an input. The model does not say what `repquota` prints about those arguments.
- The xfs backend (`NewXfsQuotaControl`) is not part of this model. It is registered only by name, and building it is an input.
- QuotaRegistry.Selected: the outcome of every backend constructor (ext4 as well as xfs) is an input. The ext4 constructor itself is `Ext4Quota.NewExt4QuotaControl`, which `Selected` does not call.
- The nvme check (`os.Stat` plus the `ll` pipe in `RunShellInt`) is one input predicate.
- `Remove(v, force)` of stone_plugin/volume/volume.go and `tools.RemovePath` are not part of this model. `LocalVolume.Removal` models `Remove(volumePath)`, and the handler takes the removal's outcome as an input.
- `tools.Collect` used by `chooseDisk` is not part of this model. The inventory is an input.
- `Restore` is `fromDisk`. The getters are field reads.
- LocalVolume.AllocateOnDisk: local_volume.go:70 calls `allocateVolumeOnDisk()` with no argument, but the only definition (local_unix.go:15-27) takes a `path` and hangs on `*LocalVolume`, not `*localVolume`. Both files also define `fromDisk` and `toDisk`, so they do not build together. The model passes `DataPath`: it lies under `VolumePath`, so `MkdirAllAs` creates both. It is also the directory that the quota is set on (local_volume.go:86) and that `fromDisk` requires on restore. With `VolumePath` instead, `New` would be unchanged except that the "already exists" message names the `stone_volume` root rather than the volume's directory.
- `getDevId`'s `syscall.Stat` is a map from path to device. In the mount scans a failed stat gives device 0.
- main.go, docker-disk/main.go, xfs-quotactl/main.go and stone_plugin/tools/tools.go are not part of this model.

## Findings

| source | as written | input that shows it | evidently intended | confidence | as-written member | corrected member |
|---|---|---|---|---|---|---|
| stone_plugin/quota/ext4quota.go:374-385 | The id loop has no exit when every id of (20971521, 23068672] is in use. | A `repquota` report listing every id of the range. | Report that no id is free. | not executed | QuotaCommon.SearchNeverEndsWhenFull | QuotaCommon.SearchFailsOnlyWhenFull |
| stone_plugin/tools/quota.go:276-287 | `id++` on uint32 wraps from 4294967295 to 0, which is never in use, so 0 is returned as a quota id. | A report whose largest `#` row is 4294967295 (or `#-1`). | Ids stay in (16777216, 2^32 - 1]. | not executed | ToolsQuota.AllocateWrapsToZero, ToolsQuota.MinusOneRowAllocatesZero | ToolsQuota.NextFreeCorrected |
| stone_plugin/volume/local_volume/local_volume.go:73-77 | The rollback removes `filepath.Dir(v.VolumePath)`, which is `<mount>/stone_volume` and holds every volume on the disk. | `New` on a disk that already holds a volume, with `setquota` failing. | Remove `v.VolumePath` only. | not executed | LocalVolume.RollbackAsWrittenRemovesAllVolumes, LocalVolume.CreatedRollsBack | LocalVolume.CreatedCorrectedRollsBack, LocalVolume.RollbackRemovesOnlyThisVolume |
| stone_plugin/quota/ext4quota.go:111-117 | `RemoveQuota` calls `SetQuota` with size 0, and `formatSize(0)` is 1, so the hard limit becomes 1 KiB. | `RemoveQuota` on any bound directory. | Limit 0, which `setquota` reads as no limit. | not executed | Ext4Quota.RemoveQuotaAsWrittenCapsAtOneKiB | Ext4Quota.RemoveQuotaLiftsLimit |
| docker-disk/disk.go:153-173 | The mount point is compared with the raw `readlink -f` output, which ends in a line end, so the boot path is never skipped. | A `df` row mounted at the process's working directory. | Compare with the trimmed path. | not executed | DockerDisk.BootSkipAsWrittenNeverFires, DockerDisk.Collect | DockerDisk.CollectTrimmed, DockerDisk.BootPathDropped |
| stone_plugin/quota/ext4quota.go:305-319 | `getUserQuota` passes `"|", "grep", uid` as arguments of `repquota`, and no shell builds a pipeline, so nothing filters the report. The row parse reads the header instead of the id's row. | `GetQuota` on a bound directory whose `repquota -gv` output opens with "*** Report for group quotas on device ...". | Filter the report through `grep` for the id, so the parse reads the id's row. | not executed | Ext4Quota.GetQuotaReadsReportHeader, QuotaText.ReportHeaderIsNotALimit | Ext4Quota.GetQuotaPipedReadsBackSetQuota, QuotaText.UserQuotaOfGrepRow |
