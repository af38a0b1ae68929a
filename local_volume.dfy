/**
 * A local volume (stone_plugin/volume/local_volume/local_volume.go and
 * local_unix.go): a directory `<mount>/stone_volume/<name>` on the chosen
 * disk, whose `_data` sub-directory is handed to containers and is capped
 * by a group quota, and whose `volume.json` records the volume so that it
 * can be restored when the plugin restarts.
 *
 * The file system is a `Files` value: the files and directories that exist,
 * with what each `volume.json` decodes to. The operations that change it
 * return the file system operations they issue, in order.
 */
module LocalVolume {
  import opened Wrappers
  import opened GoStrconv
  import opened GoPath
  import opened DiskTypes
  import QuotaText
  import QuotaCommon
  import ToolsQuota
  import GoStrings

  const VOLUME_TYPE: string := "local"
  const VOLUME_ROOT_PATH_NAME: string := "stone_volume"
  const VOLUME_DATA_PATH_NAME: string := "_data"
  const VOLUME_FILE_NAME: string := "volume.json"

  /** `activeMount`: the mount reference count, a uint64, and whether the volume is mounted. */
  datatype Active = Active(count: nat, mounted: bool)

  /** The exported fields of `localVolume`: what `volume.json` holds. */
  datatype Record = Record(
    name: string,
    volumePath: string,
    dataPath: string,
    driverName: string,
    volumeType: string,
    diskId: string,
    size: int,
    ioClass: int,
    exclusive: bool,
    active: Active)

  // ---------------------------------------------------------------------------
  // Paths

  /** `<mount>/stone_volume`: the directory holding every volume of a disk. */
  function VolumeRoot(mountPoint: string): string {
    Join(mountPoint, VOLUME_ROOT_PATH_NAME)
  }

  /** The record `New` builds for a volume on `disk`, before anything is written. */
  function Fresh(driverName: string, volumeName: string, size: int, ioClass: int, isExclusive: bool, disk: DiskInfo): Record {
    var volumePath := Join(VolumeRoot(disk.MountPoint), volumeName);
    Record(volumeName, volumePath, Join(volumePath, VOLUME_DATA_PATH_NAME), driverName, VOLUME_TYPE,
           disk.Id, size, ioClass, isExclusive, Active(0, false))
  }

  /**
   * The volume directory is `<mount>/stone_volume/<name>` and the data
   * directory `_data` inside it; the record copies the disk's id and the
   * requested size, io class and exclusivity, and starts unmounted.
   */
  lemma FreshPaths(driverName: string, volumeName: string, size: int, ioClass: int, isExclusive: bool, disk: DiskInfo)
    requires CleanDir(disk.MountPoint) && Element(volumeName)
    ensures var r := Fresh(driverName, volumeName, size, ioClass, isExclusive, disk);
            && Dir(r.dataPath) == r.volumePath && Dir(r.volumePath) == VolumeRoot(disk.MountPoint)
            && Dir(VolumeRoot(disk.MountPoint)) == disk.MountPoint
            && r.name == volumeName && r.diskId == disk.Id && r.size == size && r.ioClass == ioClass
            && r.exclusive == isExclusive && r.volumeType == VOLUME_TYPE && r.active == Active(0, false)
  {
    DirOfJoin(disk.MountPoint, VOLUME_ROOT_PATH_NAME);
    DirOfJoin(VolumeRoot(disk.MountPoint), volumeName);
    DirOfJoin(Join(VolumeRoot(disk.MountPoint), volumeName), VOLUME_DATA_PATH_NAME);
  }

  // ---------------------------------------------------------------------------
  // Mount reference counting

  /** `Mount` on the counters: mark mounted and count one more mount, in uint64 arithmetic. */
  function MountStep(a: Active): Active {
    Active(ToUint64(a.count + 1), true)
  }

  /** `Unmount` on the counters: count one mount less, in uint64 arithmetic, and clear the flag at 0. */
  function UnmountStep(a: Active): Active {
    var c := ToUint64(a.count - 1);
    Active(c, if c == 0 then false else a.mounted)
  }

  /** The counters agree: mounted exactly while some mount is outstanding. */
  predicate Consistent(a: Active) {
    a.count < TWO_64 && (a.mounted <==> a.count > 0)
  }

  /**
   * From the zero value the counters stay consistent: a mount (short of the
   * uint64 limit) counts one up and sets the flag, an unmount of a mounted
   * volume counts one down and clears the flag exactly when it reaches 0.
   */
  lemma CountersStayConsistent(a: Active)
    ensures Consistent(Active(0, false))
    ensures Consistent(a) && a.count + 1 < TWO_64 ==>
              Consistent(MountStep(a)) && MountStep(a) == Active(a.count + 1, true)
    ensures Consistent(a) && a.count > 0 ==>
              Consistent(UnmountStep(a)) && UnmountStep(a).count == a.count - 1
              && (UnmountStep(a).mounted <==> a.count > 1)
  {
  }

  /** An unmount undoes a mount. */
  lemma UnmountUndoesMount(a: Active)
    requires Consistent(a) && a.count + 1 < TWO_64
    ensures UnmountStep(MountStep(a)) == a
  {
  }

  /** An unmount of a volume nobody mounted wraps the count to 2^64 - 1 and leaves it unmounted. */
  lemma UnmountAtZeroWraps()
    ensures UnmountStep(Active(0, false)) == Active(TWO_64 - 1, false)
    ensures !Consistent(UnmountStep(Active(0, false)))
  {
  }

  /** `localVolume`: the fields `New` or `fromDisk` set, and the mount counters that change. */
  class LocalVolume {
    const name: string
    const volumePath: string
    const dataPath: string
    const driverName: string
    const volumeType: string
    const diskId: string
    const size: int
    const ioClass: int
    const exclusive: bool
    var active: Active

    function State(): Record
      reads this
    {
      Record(name, volumePath, dataPath, driverName, volumeType, diskId, size, ioClass, exclusive, active)
    }

    constructor (r: Record)
      ensures State() == r
    {
      name, volumePath, dataPath := r.name, r.volumePath, r.dataPath;
      driverName, volumeType, diskId := r.driverName, r.volumeType, r.diskId;
      size, ioClass, exclusive := r.size, r.ioClass, r.exclusive;
      active := r.active;
    }

    /** `Mount`: the data directory, after counting the mount. */
    method Mount() returns (path: string, err: Outcome)
      modifies this
      ensures active == MountStep(old(active))
      ensures path == dataPath && err == Pass
    {
      if !active.mounted {
        active := active.(mounted := true);
      }
      active := active.(count := ToUint64(active.count + 1));
      return dataPath, Pass;
    }

    /** `Unmount`. */
    method Unmount() returns (err: Outcome)
      modifies this
      ensures active == UnmountStep(old(active))
      ensures err == Pass
    {
      active := active.(count := ToUint64(active.count - 1));
      if active.count == 0 {
        active := active.(mounted := false);
      }
      return Pass;
    }
  }

  // ---------------------------------------------------------------------------
  // The file system

  /** What reading and decoding a `volume.json` gives. */
  datatype Content =
    | Document(record: Record)  // decodes to this record
    | Garbled(error: string)    // `json.Unmarshal` fails
    | Unreadable(error: string) // `ioutil.ReadFile` fails

  /** The files and directories that exist. */
  datatype Files = Files(files: map<string, Content>, dirs: set<string>)

  /** `os.Stat` does not report "not exist". */
  predicate Exists(fs: Files, path: string) {
    path in fs.files || path in fs.dirs
  }

  /** A file system operation a volume issues. */
  datatype FsOp =
    | MakeDirs(path: string)
    | RemoveTree(path: string)
    | WriteRecord(path: string, record: Record)

  /** The four fields a restored record must have. */
  predicate WellFormed(r: Record) {
    r.name != "" && r.volumePath != "" && r.dataPath != "" && r.diskId != ""
  }

  /** `fromDisk(pth)`: the record in `<pth>/volume.json`, validated. */
  function FromDisk(fs: Files, pth: string): Result<Record> {
    var filename := Join(pth, VOLUME_FILE_NAME);
    if !Exists(fs, filename) then Err("error restore from disk without volume.json")
    else if filename !in fs.files then Err("read " + filename + ": is a directory")
    else
      match fs.files[filename]
      case Unreadable(e) => Err(e)
      case Garbled(e) => Err(e)
      case Document(obj) =>
        if !Exists(fs, Join(pth, VOLUME_DATA_PATH_NAME)) then Err("error restore from disk without _data path")
        else if !WellFormed(obj) then Err("error restore from disk with wrong format data")
        else Ok(obj)
  }

  /**
   * `fromDisk` returns a record exactly when `volume.json` decodes to it, the
   * `_data` directory exists and the four identifying fields are non-empty;
   * a missing `volume.json` is reported before anything is read.
   */
  lemma FromDiskAccepts(fs: Files, pth: string)
    ensures var r := FromDisk(fs, pth);
            var filename := Join(pth, VOLUME_FILE_NAME);
            && (r.Ok? <==> filename in fs.files && fs.files[filename].Document?
                           && Exists(fs, Join(pth, VOLUME_DATA_PATH_NAME)) && WellFormed(fs.files[filename].record))
            && (r.Ok? ==> r.value == fs.files[filename].record)
            && (!Exists(fs, filename) ==> r == Err("error restore from disk without volume.json"))
            && (filename in fs.files && fs.files[filename].Document? && !Exists(fs, Join(pth, VOLUME_DATA_PATH_NAME)) ==>
                  r == Err("error restore from disk without _data path"))
            && (filename in fs.files && fs.files[filename].Document? && Exists(fs, Join(pth, VOLUME_DATA_PATH_NAME))
                && !WellFormed(fs.files[filename].record) ==>
                  r == Err("error restore from disk with wrong format data"))
  {
  }

  /** `toDisk(pth)`: `volume.json` in `pth` now decodes to the record, when the write succeeds. */
  function ToDisk(fs: Files, r: Record, pth: string, write: Outcome): (Files, Outcome) {
    if write.Fail? then (fs, write)
    else (fs.(files := fs.files[Join(pth, VOLUME_FILE_NAME) := Document(r)]), Pass)
  }

  /**
   * Round trip: a well-formed record written by `toDisk` into a directory
   * that has its `_data` sub-directory is read back unchanged by `fromDisk`.
   */
  lemma FromDiskOfToDisk(fs: Files, r: Record, pth: string)
    requires WellFormed(r) && Exists(fs, Join(pth, VOLUME_DATA_PATH_NAME))
    ensures FromDisk(ToDisk(fs, r, pth, Pass).0, pth) == Ok(r)
  {
  }

  /** What `mkdir -p` as root reports. */
  datatype MkdirOutcome = Made | AlreadyExists | MkdirFailed(error: string)

  /**
   * `allocateVolumeOnDisk(path)`: a failure to find the root ids or to
   * create the directory is returned, with "already exists" reworded to name
   * the parent directory.
   */
  function AllocateOnDisk(path: string, rootIds: Outcome, mkdir: MkdirOutcome): (r: Outcome)
    ensures r.Pass? <==> rootIds.Pass? && mkdir.Made?
    ensures rootIds.Fail? ==> r == rootIds
    ensures rootIds.Pass? && mkdir.AlreadyExists? ==> r == Fail("volume already exists under " + Dir(path))
    ensures rootIds.Pass? && mkdir.MkdirFailed? ==> r == Fail(mkdir.error)
  {
    if rootIds.Fail? then rootIds
    else
      match mkdir
      case Made => Pass
      case AlreadyExists => Fail("volume already exists under " + Dir(path))
      case MkdirFailed(e) => Fail(e)
  }

  // ---------------------------------------------------------------------------
  // Creating a volume

  /** The answers of the system to the steps of `New` beyond the quota commands. */
  datatype Env = Env(rootIds: Outcome, mkdir: MkdirOutcome, write: Outcome)

  /** What `New` leaves in the quota variables, the file system operations it issues, and the record. */
  datatype Creation = Creation(vars: QuotaCommon.Vars, ops: seq<FsOp>, result: Result<Record>)

  /**
   * The directory `New` removes when a step after the allocation fails, as
   * written: the parent of the volume's directory.
   */
  function RollbackTargetAsWritten(r: Record): string {
    Dir(r.volumePath)
  }

  /** The directory a failed `New` should remove (the corrected rollback): the volume's own. */
  function RollbackTarget(r: Record): string {
    r.volumePath
  }

  /** The size string `New` hands to the quota code: the byte count with the unit "B". */
  function SizeString(size: int): string {
    FormatInt(size) + "B"
  }

  /**
   * `New`: create the data directory, allocate a quota id, cap the data
   * directory with it, and write `volume.json`; a failure after the
   * directory exists removes, as written, the parent of the volume's
   * directory.
   */
  function Created(v: QuotaCommon.Vars, env: Env, host: QuotaCommon.Host, driverName: string, volumeName: string,
                   size: int, ioClass: int, isExclusive: bool, disk: DiskInfo): Creation
  {
    var r := Fresh(driverName, volumeName, size, ioClass, isExclusive, disk);
    CreatedAs(v, env, host, r, size, RollbackTargetAsWritten(r))
  }

  /** `New` with the corrected rollback, which removes only the volume's own directory. */
  function CreatedCorrected(v: QuotaCommon.Vars, env: Env, host: QuotaCommon.Host, driverName: string, volumeName: string,
                            size: int, ioClass: int, isExclusive: bool, disk: DiskInfo): Creation
  {
    var r := Fresh(driverName, volumeName, size, ioClass, isExclusive, disk);
    CreatedAs(v, env, host, r, size, RollbackTarget(r))
  }

  /** The steps of `New` once its record `r` is built, with a rollback that removes `target`. */
  function CreatedAs(v: QuotaCommon.Vars, env: Env, host: QuotaCommon.Host, r: Record, size: int, target: string): Creation {
    var made := if env.rootIds.Pass? then [MakeDirs(r.dataPath)] else [];
    var onDisk := AllocateOnDisk(r.dataPath, env.rootIds, env.mkdir);
    if onDisk.Fail? then Creation(v, made, Err(onDisk.error))
    else
      var undo := [RemoveTree(target)];
      var a := QuotaCommon.Allocate(ToolsQuota.QUOTA_MIN_ID, ToolsQuota.QUOTA_TOP_ID, v.lastId, v.ids, host.report);
      var w := v.(lastId := a.lastId, ids := a.ids);
      if a.err.Fail? then Creation(w, made + undo, Err(a.err.error))
      else
        var (x, quotaErr) := ToolsQuota.DiskQuotaSet(w, r.dataPath, SizeString(size), a.id, host);
        if quotaErr.Fail? then Creation(x, made + undo, Err(quotaErr.error))
        else
          var written := made + [WriteRecord(Join(r.volumePath, VOLUME_FILE_NAME), r)];
          if env.write.Fail? then Creation(x, written + undo, Err(env.write.error))
          else Creation(x, written, Ok(r))
  }

  /** `New`, with the quota package variables `g` of stone_plugin/tools/quota.go. */
  method New(g: QuotaCommon.QuotaGlobals, env: Env, host: QuotaCommon.Host, driverName: string, volumeName: string,
             size: int, ioClass: int, isExclusive: bool, disk: DiskInfo)
    returns (vol: LocalVolume?, err: Outcome, ops: seq<FsOp>)
    requires g.Valid() && ToolsQuota.ToolsGlobals(g)
    modifies g
    ensures g.Valid()
    ensures var c := Created(old(g.State()), env, host, driverName, volumeName, size, ioClass, isExclusive, disk);
            && g.State() == c.vars && ops == c.ops
            && (c.result.Ok? ==> vol != null && fresh(vol) && vol.State() == c.result.value && err == Pass)
            && (c.result.Err? ==> vol == null && err == Fail(c.result.error))
  {
    var r := Fresh(driverName, volumeName, size, ioClass, isExclusive, disk);
    ops := if env.rootIds.Pass? then [MakeDirs(r.dataPath)] else [];
    err := AllocateOnDisk(r.dataPath, env.rootIds, env.mkdir);
    if err.Fail? {
      return null, err, ops;
    }
    var sizeStr := FormatInt(size);
    var quotaId;
    quotaId, err := g.NextQuotaId(host.report);
    if err.Fail? {
      ops := ops + [RemoveTree(RollbackTargetAsWritten(r))];
      return null, err, ops;
    }
    err := ToolsQuota.SetDiskQuota(g, r.dataPath, sizeStr + "B", quotaId, host);
    if err.Fail? {
      ops := ops + [RemoveTree(RollbackTargetAsWritten(r))];
      return null, err, ops;
    }
    ops := ops + [WriteRecord(Join(r.volumePath, VOLUME_FILE_NAME), r)];
    err := env.write;
    if err.Fail? {
      ops := ops + [RemoveTree(RollbackTargetAsWritten(r))];
      return null, err, ops;
    }
    vol := new LocalVolume(r);
  }

  /** A created volume's record is the fresh one. */
  lemma CreatedRecord(v: QuotaCommon.Vars, env: Env, host: QuotaCommon.Host, driverName: string, volumeName: string,
                      size: int, ioClass: int, isExclusive: bool, disk: DiskInfo)
    ensures var c := Created(v, env, host, driverName, volumeName, size, ioClass, isExclusive, disk);
            c.result.Ok? ==> c.result.value == Fresh(driverName, volumeName, size, ioClass, isExclusive, disk)
  {
  }

  /**
   * A created volume has the fresh record, its directory was made, and its
   * `volume.json` was written last.
   */
  lemma CreatedWrites(v: QuotaCommon.Vars, env: Env, host: QuotaCommon.Host, driverName: string, volumeName: string,
                      size: int, ioClass: int, isExclusive: bool, disk: DiskInfo)
    ensures var c := Created(v, env, host, driverName, volumeName, size, ioClass, isExclusive, disk);
            var r := Fresh(driverName, volumeName, size, ioClass, isExclusive, disk);
            c.result.Ok? ==>
              && c.result.value == r
              && c.ops == [MakeDirs(r.dataPath), WriteRecord(Join(r.volumePath, VOLUME_FILE_NAME), r)]
  {
  }

  /**
   * A created volume got its quota before `volume.json` was written. When
   * the first allocation gives a non-zero id, that id is fresh, above
   * 16777216, written to the data directory's attribute and given the limit
   * of the requested byte count. When it gives the wrapped id 0, the 0 stays
   * recorded as used and `SetDiskQuota` binds the directory again; the
   * limit still goes to a non-zero id.
   */
  lemma CreatedAfterQuota(v: QuotaCommon.Vars, env: Env, host: QuotaCommon.Host, driverName: string, volumeName: string,
                          size: int, ioClass: int, isExclusive: bool, disk: DiskInfo)
    ensures var c := Created(v, env, host, driverName, volumeName, size, ioClass, isExclusive, disk);
            var r := Fresh(driverName, volumeName, size, ioClass, isExclusive, disk);
            var a := QuotaCommon.Allocate(ToolsQuota.QUOTA_MIN_ID, ToolsQuota.QUOTA_TOP_ID, v.lastId, v.ids, host.report);
            var used := QuotaCommon.UsedBefore(ToolsQuota.QUOTA_MIN_ID, ToolsQuota.QUOTA_TOP_ID, v.lastId, v.ids, host.report);
            var s := QuotaCommon.Started(v.memo, r.dataPath, host);
            var limit := QuotaText.ToByteSize(SizeString(size));
            c.result.Ok? ==>
              && a.err.Pass?
              && (a.id != 0 ==>
                    && ToolsQuota.QUOTA_MIN_ID < c.vars.lastId && c.vars.lastId == a.id && c.vars.lastId !in used
                    && c.vars.issued == v.issued + s.cmds
                         + [QuotaCommon.SetAttr(r.dataPath, a.id), QuotaCommon.SetUserQuota(a.id, limit, s.mountPoint)])
              && (a.id == 0 ==>
                    && 0 in c.vars.ids
                    && |c.vars.issued| > 0
                    && c.vars.issued[|c.vars.issued| - 1].SetUserQuota?
                    && c.vars.issued[|c.vars.issued| - 1].quotaId != 0
                    && c.vars.issued[|c.vars.issued| - 1].limit == limit
                    && c.vars.issued[|c.vars.issued| - 1].mountPoint == s.mountPoint)
  {
    var r := Fresh(driverName, volumeName, size, ioClass, isExclusive, disk);
    var a := QuotaCommon.Allocate(ToolsQuota.QUOTA_MIN_ID, ToolsQuota.QUOTA_TOP_ID, v.lastId, v.ids, host.report);
    QuotaCommon.AllocateFresh(ToolsQuota.QUOTA_MIN_ID, ToolsQuota.QUOTA_TOP_ID, v.lastId, v.ids, host.report);
    CreatedQuotaStep(v, env, host, r, size, RollbackTargetAsWritten(r));
    if a.err.Pass? {
      var w := v.(lastId := a.lastId, ids := a.ids);
      if a.id != 0 {
        ToolsQuota.DiskQuotaSetWithId(w, r.dataPath, SizeString(size), a.id, host);
        assert ToUint32(a.id) == a.id;
      } else {
        WrappedIdStaysUsed(w, r.dataPath, SizeString(size), host);
      }
    }
  }

  /** A successful `New` allocated an id and then set the quota with it. */
  lemma CreatedQuotaStep(v: QuotaCommon.Vars, env: Env, host: QuotaCommon.Host, r: Record, size: int, target: string)
    ensures var c := CreatedAs(v, env, host, r, size, target);
            var a := QuotaCommon.Allocate(ToolsQuota.QUOTA_MIN_ID, ToolsQuota.QUOTA_TOP_ID, v.lastId, v.ids, host.report);
            c.result.Ok? ==>
              && a.err.Pass?
              && (c.vars, Pass) == ToolsQuota.DiskQuotaSet(v.(lastId := a.lastId, ids := a.ids), r.dataPath, SizeString(size), a.id, host)
  {
  }

  /**
   * `SetDiskQuota` called with the wrapped id 0 keeps 0 recorded as used,
   * and a success ends with a limit for a non-zero id.
   */
  lemma WrappedIdStaysUsed(w: QuotaCommon.Vars, dir: string, size: string, host: QuotaCommon.Host)
    requires 0 in w.ids
    ensures var (x, err) := ToolsQuota.DiskQuotaSet(w, dir, size, 0, host);
            var s := QuotaCommon.Started(w.memo, dir, host);
            && 0 in x.ids
            && (err.Pass? ==>
                  && |x.issued| > 0
                  && x.issued[|x.issued| - 1] == QuotaCommon.SetUserQuota(x.issued[|x.issued| - 1].quotaId, QuotaText.ToByteSize(size), s.mountPoint)
                  && x.issued[|x.issued| - 1].quotaId != 0)
  {
    var s := QuotaCommon.Started(w.memo, dir, host);
    var u := QuotaCommon.AfterStart(w, s);
    QuotaCommon.SubtreeBinds(ToolsQuota.QUOTA_MIN_ID, ToolsQuota.QUOTA_TOP_ID, u, dir, 0, host);
    if u.lastId == 0 && host.report.Ok? {
      QuotaCommon.MarkUsedContents(u.ids, QuotaCommon.ReportIds(GoStrings.Split(host.report.value, '\n'), ToolsQuota.QUOTA_MIN_ID, ToolsQuota.QUOTA_TOP_ID));
    }
  }

  /**
   * The limit a positive size gets is `formatSize` of it: its whole KiB,
   * at least 1.
   */
  lemma SizeStringLimit(size: int)
    requires 0 < size < TWO_64
    ensures QuotaText.ToByteSize(SizeString(size)) == QuotaText.FormatSize(size)
  {
    QuotaText.ByteSuffixMatchesFormatSize(size);
  }

  /** A `New` that fails before its directory exists leaves the quota variables alone and removes nothing. */
  lemma CreatedFailsEarly(v: QuotaCommon.Vars, env: Env, host: QuotaCommon.Host, driverName: string, volumeName: string,
                          size: int, ioClass: int, isExclusive: bool, disk: DiskInfo)
    ensures var c := Created(v, env, host, driverName, volumeName, size, ioClass, isExclusive, disk);
            var r := Fresh(driverName, volumeName, size, ioClass, isExclusive, disk);
            AllocateOnDisk(r.dataPath, env.rootIds, env.mkdir).Fail? ==>
              c.result.Err? && c.vars == v && |c.ops| <= 1 && forall i :: 0 <= i < |c.ops| ==> !c.ops[i].RemoveTree?
  {
  }

  /**
   * A `New` that fails once its directory exists returns no volume, never
   * writes `volume.json` unless the quota was set, and ends, as written, by
   * removing the parent of the volume's directory.
   */
  lemma CreatedRollsBack(v: QuotaCommon.Vars, env: Env, host: QuotaCommon.Host, driverName: string, volumeName: string,
                         size: int, ioClass: int, isExclusive: bool, disk: DiskInfo)
    ensures var c := Created(v, env, host, driverName, volumeName, size, ioClass, isExclusive, disk);
            var r := Fresh(driverName, volumeName, size, ioClass, isExclusive, disk);
            c.result.Err? && AllocateOnDisk(r.dataPath, env.rootIds, env.mkdir).Pass? ==>
              && |c.ops| >= 2 && c.ops[0] == MakeDirs(r.dataPath) && c.ops[|c.ops| - 1] == RemoveTree(Dir(r.volumePath))
              && (|c.ops| == 3 <==> env.write.Fail? && c.ops[1] == WriteRecord(Join(r.volumePath, VOLUME_FILE_NAME), r))
  {
    var r := Fresh(driverName, volumeName, size, ioClass, isExclusive, disk);
    CreatedAsRollsBack(v, env, host, r, size, RollbackTargetAsWritten(r));
  }

  /** With the corrected rollback, a failed `New` ends by removing the volume's own directory, and only that. */
  lemma CreatedCorrectedRollsBack(v: QuotaCommon.Vars, env: Env, host: QuotaCommon.Host, driverName: string, volumeName: string,
                                  size: int, ioClass: int, isExclusive: bool, disk: DiskInfo)
    ensures var c := CreatedCorrected(v, env, host, driverName, volumeName, size, ioClass, isExclusive, disk);
            var r := Fresh(driverName, volumeName, size, ioClass, isExclusive, disk);
            c.result.Err? && AllocateOnDisk(r.dataPath, env.rootIds, env.mkdir).Pass? ==>
              && |c.ops| >= 2 && c.ops[0] == MakeDirs(r.dataPath) && c.ops[|c.ops| - 1] == RemoveTree(r.volumePath)
              && (forall i :: 0 <= i < |c.ops| - 1 ==> !c.ops[i].RemoveTree?)
    ensures var c := CreatedCorrected(v, env, host, driverName, volumeName, size, ioClass, isExclusive, disk);
            var c0 := Created(v, env, host, driverName, volumeName, size, ioClass, isExclusive, disk);
            c.result == c0.result && c.vars == c0.vars
  {
    var r := Fresh(driverName, volumeName, size, ioClass, isExclusive, disk);
    CreatedAsRollsBack(v, env, host, r, size, RollbackTarget(r));
  }

  /** The rollback of the steps of `New`, for any record and rollback target. */
  lemma CreatedAsRollsBack(v: QuotaCommon.Vars, env: Env, host: QuotaCommon.Host, r: Record, size: int, target: string)
    ensures var c := CreatedAs(v, env, host, r, size, target);
            c.result.Err? && AllocateOnDisk(r.dataPath, env.rootIds, env.mkdir).Pass? ==>
              && |c.ops| >= 2 && c.ops[0] == MakeDirs(r.dataPath) && c.ops[|c.ops| - 1] == RemoveTree(target)
              && (forall i :: 0 <= i < |c.ops| - 1 ==> !c.ops[i].RemoveTree?)
              && (|c.ops| == 3 <==> env.write.Fail? && c.ops[1] == WriteRecord(Join(r.volumePath, VOLUME_FILE_NAME), r))
  {
  }

  /**
   * As written, the rollback removes the parent of the volume's directory:
   * `<mount>/stone_volume`, which holds every other volume of the disk.
   */
  lemma RollbackAsWrittenRemovesAllVolumes(driverName: string, volumeName: string, size: int, ioClass: int,
                                           isExclusive: bool, disk: DiskInfo, other: string)
    requires CleanDir(disk.MountPoint) && Element(volumeName) && Element(other)
    ensures var r := Fresh(driverName, volumeName, size, ioClass, isExclusive, disk);
            && RollbackTargetAsWritten(r) == VolumeRoot(disk.MountPoint)
            && Dir(Join(VolumeRoot(disk.MountPoint), other)) == RollbackTargetAsWritten(r)
  {
    DirOfJoin(disk.MountPoint, VOLUME_ROOT_PATH_NAME);
    DirOfJoin(VolumeRoot(disk.MountPoint), volumeName);
    DirOfJoin(VolumeRoot(disk.MountPoint), other);
  }

  /**
   * The corrected rollback removes the volume's own directory, which holds
   * its data directory and no other volume: another volume's directory on
   * the same disk is neither it nor inside it.
   */
  lemma RollbackRemovesOnlyThisVolume(driverName: string, volumeName: string, size: int, ioClass: int,
                                      isExclusive: bool, disk: DiskInfo, other: string)
    requires CleanDir(disk.MountPoint) && Element(volumeName) && Element(other) && other != volumeName
    ensures var r := Fresh(driverName, volumeName, size, ioClass, isExclusive, disk);
            var t := RollbackTarget(r);
            var o := Join(VolumeRoot(disk.MountPoint), other);
            && Dir(r.dataPath) == t
            && t != o
            && !(|t| < |o| && o[..|t| + 1] == t + "/")
  {
    DirOfJoin(disk.MountPoint, VOLUME_ROOT_PATH_NAME);
    OwnDirSeparate(VolumeRoot(disk.MountPoint), volumeName, other);
  }

  /** Under a clean `root`, the parent of `<root>/<name>/_data` is `<root>/<name>`, which neither is nor holds `<root>/<other>`. */
  lemma OwnDirSeparate(root: string, name: string, other: string)
    requires CleanDir(root) && Element(name) && Element(other) && name != other
    ensures Dir(Join(Join(root, name), VOLUME_DATA_PATH_NAME)) == Join(root, name)
    ensures var t, o := Join(root, name), Join(root, other);
            t != o && !(|t| < |o| && o[..|t| + 1] == t + "/")
  {
    DirOfJoin(root, name);
    DirOfJoin(Join(root, name), VOLUME_DATA_PATH_NAME);
    JoinDistinct(root, name, other);
  }

  // ---------------------------------------------------------------------------
  // Removing a volume

  /** What `filepath.EvalSymlinks` reports. */
  datatype Resolution = Resolved(path: string) | LinkMissing | LinkFailed(error: string)

  /**
   * `Remove(volumePath)`: remove the resolved volume directory (its parent
   * when the path no longer exists), then the parent; `removeReal` and
   * `removeParent` are the outcomes of the two removals.
   */
  function Removal(volumePath: string, link: Resolution, removeReal: Outcome, removeParent: Outcome): (seq<FsOp>, Outcome) {
    if link.LinkFailed? then ([], Fail(link.error))
    else
      var realPath := if link.Resolved? then link.path else Dir(volumePath);
      if removeReal.Fail? then ([RemoveTree(realPath)], removeReal)
      else ([RemoveTree(realPath), RemoveTree(Dir(volumePath))], removeParent)
  }

  /**
   * A resolution error other than "not exist" removes nothing; otherwise the
   * resolved directory (or the parent, when the path is gone) is removed
   * first, and the parent only after that removal succeeded.
   */
  lemma RemovalOrder(volumePath: string, link: Resolution, removeReal: Outcome, removeParent: Outcome)
    ensures var (ops, err) := Removal(volumePath, link, removeReal, removeParent);
            && (link.LinkFailed? ==> ops == [] && err == Fail(link.error))
            && (!link.LinkFailed? ==>
                  && |ops| >= 1 && ops[0] == RemoveTree(if link.Resolved? then link.path else Dir(volumePath))
                  && (|ops| == 2 <==> removeReal.Pass?)
                  && (|ops| == 2 ==> ops[1] == RemoveTree(Dir(volumePath)) && err == removeParent)
                  && (|ops| == 1 ==> err == removeReal))
  {
  }
}
