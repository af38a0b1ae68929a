/**
 * The volume registry of the plugin (stone_plugin/stone_plugin.go and
 * `restoreVolumes` of stone_plugin/plugin_unix.go): the map from volume
 * name to volume that the Docker volume API requests read and change.
 */
module StonePlugin {
  import opened Wrappers
  import opened DiskTypes
  import opened GoPath
  import Options
  import Placement
  import QuotaCommon
  import ToolsQuota
  import opened LocalVolume

  const DEFAULT_DRIVER_NAME: string := "stone"

  /** The characters docker's `RestrictedNameChars` allows: the first one, and the others. */
  predicate NameStart(c: char) {
    ('a' <= c <= 'z') || ('A' <= c <= 'Z') || ('0' <= c <= '9')
  }

  predicate NameChar(c: char) {
    NameStart(c) || c == '_' || c == '.' || c == '-'
  }

  /** `volumeNameRegex`: `^[a-zA-Z0-9][a-zA-Z0-9_.-]+$`. */
  predicate ValidName(name: string) {
    |name| >= 2 && NameStart(name[0]) && forall i :: 1 <= i < |name| ==> NameChar(name[i])
  }

  /** A valid name is a single path element, so the volume lives directly under the disk's root. */
  lemma ValidNameIsElement(name: string)
    requires ValidName(name)
    ensures Element(name)
  {
    if '/' in name {
      var i :| 0 <= i < |name| && name[i] == '/';
    }
  }

  function InvalidNameMessage(name: string): string {
    "\"" + name + "\" includes invalid characters for a local volume name, only \"[a-zA-Z0-9][a-zA-Z0-9_.-]\" are allowed"
  }

  /** `fmtError(err, vol)`. */
  function FmtError(error: string, name: string): string {
    error + ": with volume name " + name
  }

  /**
   * `v` is volume `name` of the default driver, freshly laid out on one of
   * `disks` with the size, io class and exclusivity it was given.
   */
  ghost predicate CreatedOn(v: LocalVolume, name: string, disks: seq<DiskInfo>)
    reads v
  {
    && v.driverName == DEFAULT_DRIVER_NAME
    && exists d :: d in disks && v.State() == Fresh(DEFAULT_DRIVER_NAME, name, v.size, v.ioClass, v.exclusive, d)
  }

  /** An entry of `ioutil.ReadDir`. */
  datatype DirEntry = DirEntry(name: string, isDir: bool)

  /** One entry of a `List` answer. */
  datatype Entry = Entry(name: string, mountpoint: string)

  // ---------------------------------------------------------------------------
  // Restoring the registry

  /** The volumes of the entries of one `stone_volume` directory, added to `acc`; the first error ends the scan. */
  function RestoreEntries(fs: Files, root: string, entries: seq<DirEntry>, acc: map<string, Record>): Result<map<string, Record>>
    decreases |entries|
  {
    if |entries| == 0 then Ok(acc)
    else if !entries[0].isDir then RestoreEntries(fs, root, entries[1..], acc)
    else
      match FromDisk(fs, Join(root, entries[0].name))
      case Err(e) => Err(e)
      case Ok(r) => RestoreEntries(fs, root, entries[1..], acc[r.name := r])
  }

  /** `ReadDir(root)`, whose error is ignored: no entries. */
  function Listing(listing: map<string, seq<DirEntry>>, root: string): seq<DirEntry> {
    if root in listing then listing[root] else []
  }

  /** `restoreVolumes`: the disks in order, skipping those without a `stone_volume` directory. */
  function RestoreDisks(fs: Files, listing: map<string, seq<DirEntry>>, disks: seq<DiskInfo>, acc: map<string, Record>): Result<map<string, Record>>
    decreases |disks|
  {
    if |disks| == 0 then Ok(acc)
    else
      var root := VolumeRoot(disks[0].MountPoint);
      if !Exists(fs, root) then RestoreDisks(fs, listing, disks[1..], acc)
      else
        match RestoreEntries(fs, root, Listing(listing, root), acc)
        case Err(e) => Err(e)
        case Ok(m) => RestoreDisks(fs, listing, disks[1..], m)
  }

  /** Every volume is filed under its own name and passed the restore checks. */
  predicate KeyedByName(m: map<string, Record>) {
    forall k :: k in m ==> m[k].name == k && WellFormed(m[k])
  }

  lemma {:induction false} RestoreEntriesKeyedByName(fs: Files, root: string, entries: seq<DirEntry>, acc: map<string, Record>)
    requires KeyedByName(acc)
    ensures var r := RestoreEntries(fs, root, entries, acc);
            r.Ok? ==> KeyedByName(r.value) && acc.Keys <= r.value.Keys
    decreases |entries|
  {
    if |entries| > 0 {
      if !entries[0].isDir {
        RestoreEntriesKeyedByName(fs, root, entries[1..], acc);
      } else {
        var f := FromDisk(fs, Join(root, entries[0].name));
        if f.Ok? {
          FromDiskAccepts(fs, Join(root, entries[0].name));
          RestoreEntriesKeyedByName(fs, root, entries[1..], acc[f.value.name := f.value]);
        }
      }
    }
  }

  /**
   * `restoreVolumes` files every volume under the name in its record, and
   * every volume it returns passed the checks of `fromDisk`.
   */
  lemma {:induction false} RestoreKeyedByName(fs: Files, listing: map<string, seq<DirEntry>>, disks: seq<DiskInfo>, acc: map<string, Record>)
    requires KeyedByName(acc)
    ensures var r := RestoreDisks(fs, listing, disks, acc);
            r.Ok? ==> KeyedByName(r.value) && acc.Keys <= r.value.Keys
    decreases |disks|
  {
    if |disks| > 0 {
      var root := VolumeRoot(disks[0].MountPoint);
      if !Exists(fs, root) {
        RestoreKeyedByName(fs, listing, disks[1..], acc);
      } else {
        RestoreEntriesKeyedByName(fs, root, Listing(listing, root), acc);
        var m := RestoreEntries(fs, root, Listing(listing, root), acc);
        if m.Ok? {
          RestoreKeyedByName(fs, listing, disks[1..], m.value);
        }
      }
    }
  }

  /** An error of `restoreVolumes` is the error of `fromDisk` on some directory entry of some disk's root. */
  lemma {:induction false} RestoreEntriesError(fs: Files, root: string, entries: seq<DirEntry>, acc: map<string, Record>)
    ensures var r := RestoreEntries(fs, root, entries, acc);
            r.Err? ==> exists i :: 0 <= i < |entries| && entries[i].isDir && FromDisk(fs, Join(root, entries[i].name)) == Err(r.error)
    decreases |entries|
  {
    if |entries| > 0 {
      var f := FromDisk(fs, Join(root, entries[0].name));
      if !entries[0].isDir || f.Ok? {
        var acc' := if !entries[0].isDir then acc else acc[f.value.name := f.value];
        RestoreEntriesError(fs, root, entries[1..], acc');
        var r := RestoreEntries(fs, root, entries, acc);
        if r.Err? {
          var i :| 0 <= i < |entries[1..]| && entries[1..][i].isDir && FromDisk(fs, Join(root, entries[1..][i].name)) == Err(r.error);
          assert entries[i + 1] == entries[1..][i];
        }
      }
    }
  }

  /** A disk without a `stone_volume` directory contributes nothing. */
  lemma RestoreSkipsDiskWithoutRoot(fs: Files, listing: map<string, seq<DirEntry>>, disks: seq<DiskInfo>, acc: map<string, Record>)
    requires |disks| > 0 && !Exists(fs, VolumeRoot(disks[0].MountPoint))
    ensures RestoreDisks(fs, listing, disks, acc) == RestoreDisks(fs, listing, disks[1..], acc)
  {
  }

  /** `restoreVolumes`: new volume objects for the records, or the first error and no map. */
  method RestoreVolumes(disks: seq<DiskInfo>, fs: Files, listing: map<string, seq<DirEntry>>)
    returns (vols: map<string, LocalVolume>, err: Outcome)
    ensures var r := RestoreDisks(fs, listing, disks, map[]);
            && (r.Err? ==> vols == map[] && err == Fail(r.error))
            && (r.Ok? ==> err == Pass && vols.Keys == r.value.Keys
                          && forall k :: k in vols ==> fresh(vols[k]) && vols[k].State() == r.value[k])
  {
    vols := map[];
    ghost var acc: map<string, Record> := map[];
    var i := 0;
    while i < |disks|
      invariant 0 <= i <= |disks|
      invariant RestoreDisks(fs, listing, disks, map[]) == RestoreDisks(fs, listing, disks[i..], acc)
      invariant vols.Keys == acc.Keys
      invariant forall k :: k in vols ==> fresh(vols[k]) && vols[k].State() == acc[k]
    {
      var rootPath := VolumeRoot(disks[i].MountPoint);
      if Exists(fs, rootPath) {
        var files := Listing(listing, rootPath);
        ghost var start := acc;
        var j := 0;
        while j < |files|
          invariant 0 <= j <= |files|
          invariant RestoreEntries(fs, rootPath, files, start) == RestoreEntries(fs, rootPath, files[j..], acc)
          invariant vols.Keys == acc.Keys
          invariant forall k :: k in vols ==> fresh(vols[k]) && vols[k].State() == acc[k]
        {
          if files[j].isDir {
            var volumePath := Join(rootPath, files[j].name);
            var restored := FromDisk(fs, volumePath);
            if restored.Err? {
              return map[], Fail(restored.error);
            }
            var v := new LocalVolume(restored.value);
            vols := vols[v.name := v];
            acc := acc[v.name := restored.value];
          }
          j := j + 1;
        }
        assert files[j..] == [];
      }
      i := i + 1;
    }
    return vols, Pass;
  }

  // ---------------------------------------------------------------------------
  // The registry

  /** What placement reads of the registered volumes. */
  function Placements(volumes: map<string, LocalVolume>): map<string, Placement.Placed> {
    map k | k in volumes :: Placement.Placed(volumes[k].diskId, volumes[k].size, volumes[k].ioClass, volumes[k].exclusive)
  }

  /** `d` is a disk `chooseDisk` may answer for request `o`: the first disk with the named id, or a first-minimum candidate. */
  ghost predicate Chosen(o: Options.OptsConfig, disks: seq<DiskInfo>, vols: map<string, Placement.Placed>, d: DiskInfo) {
    if o.diskId != "" then
      exists i :: 0 <= i < |disks| && disks[i] == d && d.Id == o.diskId && forall j :: 0 <= j < i ==> disks[j].Id != o.diskId
    else
      && d in disks && Placement.Qualifies(o, vols, d)
      && exists k :: Placement.IsSelection(o, vols, disks, k) && Placement.Candidates(o, vols, disks)[k] == d
  }

  /** `chooseDisk` fails on a read inventory: no disk has the named id, or every candidate scores at the ceiling or above. */
  ghost predicate Unplaceable(o: Options.OptsConfig, disks: seq<DiskInfo>, vols: map<string, Placement.Placed>) {
    if o.diskId != "" then forall i :: 0 <= i < |disks| ==> disks[i].Id != o.diskId
    else
      var c := Placement.Candidates(o, vols, disks);
      forall j :: 0 <= j < |c| ==> Placement.Score(o, vols, disks, c[j].Id) >= Placement.SCORE_CEILING
  }

  /** The error of a failed `chooseDisk` on a read inventory. */
  function PlacementError(o: Options.OptsConfig): string {
    if o.diskId != "" then Placement.NotFoundMessage(o.diskId) else Placement.NO_DISK_SUIT
  }

  /** Placement fails exactly when there is no disk it could choose. */
  lemma PlacementFailsIffNoChoice(o: Options.OptsConfig, disks: seq<DiskInfo>, vols: map<string, Placement.Placed>)
    ensures Unplaceable(o, disks, vols) <==> forall d :: !Chosen(o, disks, vols, d)
  {
    if o.diskId != "" {
      if !Unplaceable(o, disks, vols) {
        var i := FirstWithId(disks, o.diskId);
        assert Chosen(o, disks, vols, disks[i]);
      }
    } else if !Unplaceable(o, disks, vols) {
      var d := SomeScoredChoice(o, disks, vols);
    }
  }

  /** Some candidate below the ceiling means there is a first minimum to choose. */
  lemma SomeScoredChoice(o: Options.OptsConfig, disks: seq<DiskInfo>, vols: map<string, Placement.Placed>) returns (d: DiskInfo)
    requires o.diskId == "" && !Unplaceable(o, disks, vols)
    ensures Chosen(o, disks, vols, d)
  {
    var c := Placement.Candidates(o, vols, disks);
    var j :| 0 <= j < |c| && Placement.Score(o, vols, disks, c[j].Id) < Placement.SCORE_CEILING;
    var k := Placement.SelectionBelowCeiling(o, vols, disks, j);
    d := c[k];
  }

  /** The first position of a disk with id `id`, when there is one. */
  lemma FirstWithId(disks: seq<DiskInfo>, id: string) returns (i: int)
    requires exists n :: 0 <= n < |disks| && disks[n].Id == id
    ensures 0 <= i < |disks| && disks[i].Id == id && forall j :: 0 <= j < i ==> disks[j].Id != id
  {
    i := 0;
    while disks[i].Id != id
      invariant 0 <= i < |disks|
      invariant forall j :: 0 <= j < i ==> disks[j].Id != id
      decreases |disks| - i
    {
      i := i + 1;
    }
  }

  /**
   * The end of `create` on disk `d` with request `o`: the quota variables
   * and operations are those of `New`, an error of `New` is answered and
   * files nothing, and a new volume is filed under `name` otherwise.
   */
  ghost predicate Registered(before: QuotaCommon.Vars, after: QuotaCommon.Vars, vols: map<string, LocalVolume>,
                             vols': map<string, LocalVolume>, env: Env, host: QuotaCommon.Host, name: string,
                             o: Options.OptsConfig, d: DiskInfo, r: Option<string>, ops: seq<FsOp>)
    reads vols'.Values
  {
    var c := Created(before, env, host, DEFAULT_DRIVER_NAME, name, o.size, o.ioClass, o.exclusive, d);
    && after == c.vars && ops == c.ops
    && (c.result.Err? ==> r == Some(FmtError(c.result.error, name)) && vols' == vols)
    && (c.result.Ok? ==> r == None && name in vols' && vols' == vols[name := vols'[name]] && vols'[name].State() == c.result.value)
  }

  /**
   * `create` for a valid name that is not registered: a rejected option, an
   * unreadable inventory or a failed placement is answered with its error
   * and changes nothing; otherwise `New` runs on a disk `chooseDisk` may
   * answer, with the parsed size, io class and exclusivity.
   */
  ghost predicate CreatedNew(before: QuotaCommon.Vars, after: QuotaCommon.Vars, vols: map<string, LocalVolume>,
                             vols': map<string, LocalVolume>, env: Env, host: QuotaCommon.Host,
                             inventory: Result<seq<DiskInfo>>, name: string, options: map<string, string>,
                             r: Option<string>, ops: seq<FsOp>)
    reads vols'.Values
  {
    var untouched := after == before && vols' == vols && ops == [];
    if !Options.Accepted(options) then
      untouched && exists e :: r == Some(FmtError(e, name)) && Options.Rejects(options, e)
    else if inventory.Err? then
      untouched && r == Some(FmtError(inventory.error, name))
    else
      var o := Options.Parsed(options);
      if Unplaceable(o, inventory.value, Placements(vols)) then
        untouched && r == Some(FmtError(PlacementError(o), name))
      else
        exists d :: Chosen(o, inventory.value, Placements(vols), d) && Registered(before, after, vols, vols', env, host, name, o, d, r, ops)
  }

  /** `stonePlugin`: the volumes by name. */
  class Plugin {
    var volumes: map<string, LocalVolume>

    /** Every volume is filed under its own name, so no two names share a volume. */
    predicate Valid()
      reads this
    {
      forall k :: k in volumes ==> volumes[k].name == k
    }

    /** `New`, from the result of `restoreVolumes`. */
    constructor (vols: map<string, LocalVolume>)
      requires forall k :: k in vols ==> vols[k].name == k
      ensures Valid() && volumes == vols
    {
      volumes := vols;
    }

    /** `create`: validate the name, parse the options, choose a disk and create the volume on it. */
    method Create(g: QuotaCommon.QuotaGlobals, env: Env, host: QuotaCommon.Host, inventory: Result<seq<DiskInfo>>,
                  name: string, options: map<string, string>)
      returns (r: Option<string>, ops: seq<FsOp>)
      requires Valid() && g.Valid() && ToolsQuota.ToolsGlobals(g)
      modifies this, g
      ensures Valid() && g.Valid()
      ensures !ValidName(name) ==>
                r == Some(FmtError(InvalidNameMessage(name), name)) && volumes == old(volumes) && g.State() == old(g.State())
      ensures ValidName(name) && name in old(volumes) ==>
                r == None && volumes == old(volumes) && g.State() == old(g.State())
      ensures r.Some? ==> volumes == old(volumes)
      ensures ValidName(name) && name !in old(volumes) ==>
                CreatedNew(old(g.State()), g.State(), old(volumes), volumes, env, host, inventory, name, options, r, ops)
      ensures r.None? && name !in old(volumes) ==>
                && name in volumes && fresh(volumes[name]) && volumes == old(volumes)[name := volumes[name]]
                && inventory.Ok? && CreatedOn(volumes[name], name, inventory.value)
    {
      ops := [];
      if !ValidName(name) {
        return Some(FmtError(InvalidNameMessage(name), name)), ops;
      }
      if name in volumes {
        return None, ops;
      }
      r, ops := CreateNew(g, env, host, inventory, name, options);
    }

    /** `create` for a valid name not yet registered: options, placement, then `Register`. */
    method CreateNew(g: QuotaCommon.QuotaGlobals, env: Env, host: QuotaCommon.Host, inventory: Result<seq<DiskInfo>>,
                     name: string, options: map<string, string>)
      returns (r: Option<string>, ops: seq<FsOp>)
      requires Valid() && g.Valid() && ToolsQuota.ToolsGlobals(g)
      modifies this, g
      ensures Valid() && g.Valid()
      ensures r.Some? ==> volumes == old(volumes)
      ensures CreatedNew(old(g.State()), g.State(), old(volumes), volumes, env, host, inventory, name, options, r, ops)
      ensures r.None? ==>
                && name in volumes && fresh(volumes[name]) && volumes == old(volumes)[name := volumes[name]]
                && inventory.Ok? && CreatedOn(volumes[name], name, inventory.value)
    {
      ops := [];
      var opts := Options.SetOpts(options);
      if opts.Err? {
        return Some(FmtError(opts.error, name)), ops;
      }
      var d := Placement.ChooseDisk(opts.value, inventory, Placements(volumes));
      if d.Err? {
        return Some(FmtError(d.error, name)), ops;
      }
      r, ops := Register(g, env, host, name, opts.value, d.value);
    }

    /** The end of `create`: `volume.New` on the chosen disk, and the new volume filed under its name. */
    method Register(g: QuotaCommon.QuotaGlobals, env: Env, host: QuotaCommon.Host, name: string,
                    opts: Options.OptsConfig, disk: DiskInfo)
      returns (r: Option<string>, ops: seq<FsOp>)
      requires Valid() && g.Valid() && ToolsQuota.ToolsGlobals(g)
      modifies this, g
      ensures Valid() && g.Valid()
      ensures r.Some? ==> volumes == old(volumes)
      ensures Registered(old(g.State()), g.State(), old(volumes), volumes, env, host, name, opts, disk, r, ops)
      ensures r.None? ==>
                && name in volumes && fresh(volumes[name]) && volumes == old(volumes)[name := volumes[name]]
                && volumes[name].State() == Fresh(DEFAULT_DRIVER_NAME, name, opts.size, opts.ioClass, opts.exclusive, disk)
    {
      ghost var before := g.State();
      var v, err;
      v, err, ops := New(g, env, host, DEFAULT_DRIVER_NAME, name, opts.size, opts.ioClass, opts.exclusive, disk);
      if err.Fail? {
        return Some(FmtError(err.error, name)), ops;
      }
      CreatedRecord(before, env, host, DEFAULT_DRIVER_NAME, name, opts.size, opts.ioClass, opts.exclusive, disk);
      volumes := volumes[name := v];
      r := None;
    }

    /** `remove`, with `removed` the outcome of removing the volume from disk. */
    method Remove(name: string, removed: Outcome) returns (r: Option<string>)
      requires Valid()
      modifies this
      ensures Valid()
      ensures name !in old(volumes) ==> r == Some(FmtError("volume not exist when do remove", name)) && volumes == old(volumes)
      ensures name in old(volumes) && removed.Fail? ==> r == Some(FmtError(removed.error, name)) && volumes == old(volumes)
      ensures name in old(volumes) && removed.Pass? ==> r == None && volumes == old(volumes) - {name}
    {
      if name !in volumes {
        return Some(FmtError("volume not exist when do remove", name));
      }
      if removed.Fail? {
        return Some(FmtError(removed.error, name));
      }
      volumes := volumes - {name};
      r := None;
    }

    /** `mount`: count a mount of the named volume and answer its data directory. */
    method Mount(name: string) returns (mountpoint: Option<string>, r: Option<string>)
      requires Valid()
      modifies volumes.Values
      ensures Valid()
      ensures name !in volumes ==> mountpoint == None && r == Some(FmtError("volume not exist when do mount", name))
      ensures name in volumes ==>
                && mountpoint == Some(volumes[name].dataPath) && r == None
                && volumes[name].active == MountStep(old(volumes[name].active))
      ensures forall k :: k in volumes && k != name ==> volumes[k].active == old(volumes[k].active)
    {
      if name !in volumes {
        return None, Some(FmtError("volume not exist when do mount", name));
      }
      var v := volumes[name];
      var path, _ := v.Mount();
      return Some(path), None;
    }

    /** `unmount`: count an unmount of the named volume. */
    method Unmount(name: string) returns (r: Option<string>)
      requires Valid()
      modifies volumes.Values
      ensures Valid()
      ensures name !in volumes ==> r == Some(FmtError("volume not exist when do unmount", name))
      ensures name in volumes ==> r == None && volumes[name].active == UnmountStep(old(volumes[name].active))
      ensures forall k :: k in volumes && k != name ==> volumes[k].active == old(volumes[k].active)
    {
      if name !in volumes {
        return Some(FmtError("volume not exist when do unmount", name));
      }
      var _ := volumes[name].Unmount();
      return None;
    }

    /** `path`: the data directory of the named volume. */
    function Path(name: string): (r: Result<string>)
      reads this
      ensures r.Ok? <==> name in volumes
      ensures r.Ok? ==> r.value == volumes[name].dataPath
      ensures r.Err? ==> r.error == FmtError("volume not exist when do path", name)
    {
      if name in volumes then Ok(volumes[name].dataPath) else Err(FmtError("volume not exist when do path", name))
    }

    /** `get`: the name and data directory of the named volume. */
    function Get(name: string): (r: Result<Entry>)
      reads this
      ensures r.Ok? <==> name in volumes
      ensures r.Ok? ==> r.value == Entry(name, volumes[name].dataPath)
      ensures r.Err? ==> r.error == FmtError("volume not exist when do get", name)
    {
      if name in volumes then Ok(Entry(name, volumes[name].dataPath)) else Err(FmtError("volume not exist when do get", name))
    }

    /** `list`: one entry per registered volume, in the order the map yields them. */
    method List() returns (entries: seq<Entry>)
      requires Valid()
      ensures |entries| == |volumes|
      ensures forall k :: k in volumes ==> Entry(k, volumes[k].dataPath) in entries
      ensures forall e :: e in entries ==> e.name in volumes && e.mountpoint == volumes[e.name].dataPath
    {
      entries := [];
      var left := volumes.Keys;
      while left != {}
        invariant left <= volumes.Keys
        invariant |entries| + |left| == |volumes|
        invariant forall k :: k in volumes && k !in left ==> Entry(k, volumes[k].dataPath) in entries
        invariant forall e :: e in entries ==> e.name in volumes && e.name !in left && e.mountpoint == volumes[e.name].dataPath
        decreases |left|
      {
        var k :| k in left;
        var v := volumes[k];
        entries := entries + [Entry(v.name, v.dataPath)];
        left := left - {k};
      }
    }
  }

  /**
   * `path` and `get` agree with `mount` on where a volume lives, and all
   * three fail together for a name that is not registered.
   */
  lemma PathAgreesWithGet(p: Plugin, name: string)
    ensures p.Path(name).Ok? <==> p.Get(name).Ok?
    ensures p.Get(name).Ok? ==> p.Get(name).value.mountpoint == p.Path(name).value
  {
  }
}
