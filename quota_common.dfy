/**
 * The machinery the two group-quota backends (stone_plugin/quota/ext4quota.go
 * and stone_plugin/tools/quota.go) share: the package-level variables
 * `quotaLastId`, `quotaIds` and `mountPoints`, the `repquota -gan` loader, the
 * search for the next free quota id over a range (lo, hi], and the
 * per-device bootstrap `ext4QuotaDriverStart` / `QuotaDriverStart`, whose two
 * copies are identical.
 *
 * Everything the host answers (stat, /proc/mounts, command outcomes and
 * outputs) is a `Host` value; every command the code sends to the host is
 * appended to a log, so that what was asked of the system is part of the
 * state the contracts talk about.
 */
module QuotaCommon {
  import opened Wrappers
  import opened GoStrings
  import opened GoStrconv
  import opened QuotaText

  // ---------------------------------------------------------------------------
  // The host

  /** The answers of the host to the queries and commands of the quota code. */
  datatype Host = Host(
    devIds: map<string, nat>,     // device id of each path that `stat` can see
    mounts: Result<string>,       // contents of /proc/mounts
    mountsAgain: Result<string>,  // contents of /proc/mounts when read a second time, after a remount
    quotaFiles: set<string>,      // quota files that `stat` finds
    writeFile: Outcome,           // writing a fresh quota file header
    setGrace: Outcome,            // `setquota -g -t 43200 43200 <mp>`
    setQuota: Outcome,            // `setquota -g <id> 0 <limit> 0 0 <mp>`
    quotaStatus: string,          // output of `quotaon -pg <mp>`
    quotaOn: Outcome,             // `quotaon <mp>`
    attrs: map<string, string>,   // output of `getfattr -n system.subtree` per path; absent: the command fails
    setAttr: Outcome,             // `setfattr -n system.subtree -v <id> <path>`
    report: Result<string>,       // output of `repquota -gan`
    repquotaOut: string)          // output of the per-id `repquota -gv <mp> ...` query

  /** A command sent to the host. */
  datatype Command =
    | Remount(mountPoint: string)
    | RemoveFile(path: string)
    | WriteFile(path: string, data: seq<bv8>)
    | SetGrace(mountPoint: string)
    | SetUserQuota(quotaId: nat, limit: nat, mountPoint: string)
    | QuotaOn(mountPoint: string)
    | SetAttr(path: string, quotaId: nat)

  /** `getDevId`: the device of `path`, or the error of `stat`. */
  function StatDev(host: Host, path: string): (r: Result<nat>)
    ensures r.Ok? <==> path in host.devIds
    ensures r.Ok? ==> r.value == host.devIds[path]
  {
    if path in host.devIds then Ok(host.devIds[path])
    else Err("stat " + path + ": no such file or directory")
  }

  /** Output of `getfattr -n system.subtree` on `path`. */
  function Attr(host: Host, path: string): (r: Result<string>)
    ensures r.Ok? <==> path in host.attrs
    ensures r.Ok? ==> r.value == host.attrs[path]
  {
    if path in host.attrs then Ok(host.attrs[path]) else Err("getfattr failed")
  }

  /** Go's `%v` of an error value: "<nil>" for no error. */
  function ErrorText(e: Outcome): string {
    if e.Pass? then "<nil>" else e.error
  }

  // ---------------------------------------------------------------------------
  // The package variables

  /** The values of the package variables and the commands sent so far. */
  datatype Vars = Vars(lastId: uint32, ids: map<nat, nat>, memo: map<nat, string>, issued: seq<Command>)

  /**
   * The package-level state of one backend: `quotaLastId` (0 until the ids
   * are loaded), `quotaIds` (id to use count), `mountPoints` (device to mount
   * point) and the log of commands. Ids lie in (lo, hi], and may also be 0
   * when hi is the largest uint32 (see `IdsInRange`).
   */
  class QuotaGlobals {
    const lo: nat
    const hi: nat
    var quotaLastId: uint32
    var quotaIds: map<nat, nat>
    var mountPoints: map<nat, string>
    var issued: seq<Command>

    ghost predicate Valid()
      reads this
    {
      && 0 < lo < hi < TWO_32
      && (quotaLastId == 0 || lo <= quotaLastId <= hi)
      && IdsInRange(quotaIds, lo, hi)
    }

    function State(): Vars
      reads this
    {
      Vars(quotaLastId, quotaIds, mountPoints, issued)
    }

    /** The zero values of the Go variables: nothing loaded, nothing memoised. */
    constructor (lo: nat, hi: nat)
      requires 0 < lo < hi < TWO_32
      ensures Valid()
      ensures this.lo == lo && this.hi == hi
      ensures State() == Vars(0, map[], map[], [])
    {
      this.lo, this.hi := lo, hi;
      quotaLastId, quotaIds, mountPoints, issued := 0, map[], map[], [];
    }

    /**
     * `loadQuotaIds`: record with count 1 every id of the `repquota -gan`
     * report that lies in (lo, hi], and return the largest of them, or lo.
     * A failed command changes nothing and still returns lo.
     */
    method LoadQuotaIds(report: Result<string>) returns (minId: nat, err: Outcome)
      requires Valid()
      modifies this
      ensures Valid()
      ensures (minId, quotaIds, err) == Load(report, lo, hi, old(quotaIds))
      ensures quotaLastId == old(quotaLastId) && mountPoints == old(mountPoints) && issued == old(issued)
    {
      minId := lo;
      if report.Err? {
        return minId, Fail(report.error);
      }
      var lines := Split(report.value, '\n');
      var ids;
      ids, minId := ScanReport(lines, lo, hi, quotaIds);
      MarkUsedInRange(quotaIds, ReportIds(lines, lo, hi), lo, hi);
      quotaIds := ids;
      err := Pass;
    }

    /**
     * `getNextQuatoId`: load the ids on first use, then probe the ids after
     * `quotaLastId` one by one and take the first one not in use (see
     * `FirstFree` for the two packages' loops). The search stops after one
     * full turn, when every id is in use, and reports an error (see
     * `SearchNeverEndsWhenFull` for the unbounded loop of the code).
     */
    method NextQuotaId(report: Result<string>) returns (id: nat, err: Outcome)
      requires Valid()
      modifies this
      ensures Valid()
      ensures var a := Allocate(lo, hi, old(quotaLastId), old(quotaIds), report);
              && id == a.id && err == a.err && quotaLastId == a.lastId && quotaIds == a.ids
      ensures mountPoints == old(mountPoints) && issued == old(issued)
    {
      if quotaLastId == 0 {
        var loaded, e := LoadQuotaIds(report);
        quotaLastId := loaded;
        if e.Fail? {
          return 0, e;
        }
      }
      var found: Option<nat>;
      if hi == TWO_32 - 1 {
        found := ProbeWrapping(lo, quotaIds.Keys, quotaLastId);
      } else {
        found := ProbeFolding(lo, hi, quotaIds.Keys, quotaLastId);
      }
      if found.None? {
        return 0, Fail(NO_FREE_ID);
      }
      id := found.value;
      quotaIds := quotaIds[id := 1];
      quotaLastId := id;
      err := Pass;
    }

    /**
     * The fresh quota file of a mount point: drop a stale user quota file,
     * write the header, set the grace times and the default limits; the file
     * is removed again when one of the last two steps fails.
     */
    method CreateQuotaFile(mp: string, filename: string, vfsVersion: string, host: Host) returns (err: Outcome)
      requires Valid()
      modifies this
      ensures Valid()
      ensures issued == old(issued) + QuotaFileCommands(mp, filename, vfsVersion, host).0
      ensures err == QuotaFileCommands(mp, filename, vfsVersion, host).1
      ensures quotaLastId == old(quotaLastId) && quotaIds == old(quotaIds) && mountPoints == old(mountPoints)
    {
      issued := issued + [RemoveFile(mp + "/aquota.user")];
      var header := QuotaFileHeader(vfsVersion);
      issued := issued + [WriteFile(filename, header)];
      if host.writeFile.Fail? {
        return host.writeFile;
      }
      issued := issued + [SetGrace(mp)];
      if host.setGrace.Fail? {
        issued := issued + [RemoveFile(filename)];
        return host.setGrace;
      }
      issued := issued + [SetUserQuota(0, 0, mp)];
      if host.setQuota.Fail? {
        issued := issued + [RemoveFile(filename)];
        return host.setQuota;
      }
      return Pass;
    }

    /**
     * `ext4QuotaDriverStart` / `QuotaDriverStart`: the mount point of the
     * device holding `dir`, memoised per device; on first use the mount gets
     * group quota switched on, with a fresh quota file when there is none.
     */
    method DriverStart(dir: string, host: Host) returns (mountPoint: string, err: Outcome)
      requires Valid()
      modifies this
      ensures Valid()
      ensures var s := Started(old(mountPoints), dir, host);
              && mountPoint == s.mountPoint && err == s.err
              && mountPoints == s.memo && issued == old(issued) + s.cmds
      ensures quotaLastId == old(quotaLastId) && quotaIds == old(quotaIds)
    {
      var devId := StatDev(host, dir);
      if devId.Err? {
        return "", Fail(devId.error);
      }
      if devId.value in mountPoints {
        return mountPoints[devId.value], Pass;
      }
      mountPoint, err := Bootstrap(devId.value, dir, host);
    }

    /** The bootstrap of a device that is not in the memo yet. */
    method Bootstrap(dev: nat, dir: string, host: Host) returns (mountPoint: string, err: Outcome)
      requires Valid() && dev !in mountPoints
      modifies this
      ensures Valid()
      ensures var s := FirstStart(old(mountPoints), dev, dir, host);
              && mountPoint == s.mountPoint && err == s.err
              && mountPoints == s.memo && issued == old(issued) + s.cmds
      ensures quotaLastId == old(quotaLastId) && quotaIds == old(quotaIds)
    {
      var mp, hasQuota, fsType := CheckMountpoint(host.mounts, host.devIds, dev);
      if |mp| == 0 {
        return mp, Fail("mountPoint not found: " + dir);
      }
      mountPoint, err := RemountAndEnable(dev, mp, hasQuota, host);
    }

    /** The remount when `grpquota` is missing, then the rest of the bootstrap. */
    method RemountAndEnable(dev: nat, mp: string, hasQuota: bool, host: Host) returns (mountPoint: string, err: Outcome)
      requires Valid() && mp != "" && dev !in mountPoints
      modifies this
      ensures Valid()
      ensures var s := Found(old(mountPoints), dev, mp, hasQuota, QuotaSettingsOf(host.mountsAgain, host.devIds, dev), host);
              && mountPoint == s.mountPoint && err == s.err
              && mountPoints == s.memo && issued == old(issued) + s.cmds
      ensures quotaLastId == old(quotaLastId) && quotaIds == old(quotaIds)
    {
      var remount := if hasQuota then [] else [Remount(mp)];
      issued := issued + remount;
      ghost var before := issued;
      mountPoint, err := SettleQuota(dev, mp, host);
      ConcatAssoc(old(issued), remount, issued[|before|..]);
    }

    /** The second read of the mount table for the quota format and file name, then `EnableQuota`. */
    method SettleQuota(dev: nat, mp: string, host: Host) returns (mountPoint: string, err: Outcome)
      requires Valid() && mp != "" && dev !in mountPoints
      modifies this
      ensures Valid()
      ensures var s := Settle(old(mountPoints), dev, mp, QuotaSettingsOf(host.mountsAgain, host.devIds, dev), host);
              && mountPoint == s.mountPoint && err == s.err
              && mountPoints == s.memo && issued == old(issued) + s.cmds
      ensures quotaLastId == old(quotaLastId) && quotaIds == old(quotaIds)
    {
      var vfsVersion, quotaFilename, e := GetVFSVersionAndQuotaFile(host.mountsAgain, host.devIds, dev);
      if e.Fail? {
        return "", e;
      }
      mountPoint, err := EnableQuota(dev, mp, vfsVersion, quotaFilename, host);
    }

    /** The quota file (created when missing), then `quotaon`. */
    method EnableQuota(dev: nat, mp: string, vfsVersion: string, quotaFilename: string, host: Host)
      returns (mountPoint: string, err: Outcome)
      requires Valid() && mp != "" && dev !in mountPoints
      modifies this
      ensures Valid()
      ensures var s := Enable(old(mountPoints), dev, mp, vfsVersion, quotaFilename, host);
              && mountPoint == s.mountPoint && err == s.err
              && mountPoints == s.memo && issued == old(issued) + s.cmds
      ensures quotaLastId == old(quotaLastId) && quotaIds == old(quotaIds)
    {
      var filename := mp + "/" + quotaFilename;
      ghost var created: seq<Command> := [];
      if filename !in host.quotaFiles {
        var e := CreateQuotaFile(mp, filename, vfsVersion, host);
        created := QuotaFileCommands(mp, filename, vfsVersion, host).0;
        if e.Fail? {
          return mp, e;
        }
      }
      ghost var on := SwitchOn(mountPoints, dev, mp, host);
      assert old(issued) + created + on.cmds == old(issued) + (created + on.cmds);
      mountPoint, err := TurnQuotaOn(dev, mp, host);
    }

    /**
     * `setSubtree` / `SetSubtree`: bind `dir` to quota id `qid` through the
     * `system.subtree` attribute. With qid 0 an id the attribute already holds
     * is returned as it is, and otherwise a fresh id is allocated first.
     */
    method SetSubtree(dir: string, qid: nat, host: Host) returns (id: nat, err: Outcome)
      requires Valid()
      modifies this
      ensures Valid()
      ensures var b := Subtree(lo, hi, old(State()), dir, qid, host);
              && id == b.id && err == b.err && State() == b.vars
    {
      id := qid;
      if id == 0 {
        id := FileAttrId(Attr(host, dir));
        if id > 0 {
          return id, Pass;
        }
        id, err := NextQuotaId(host.report);
        if err.Fail? {
          return 0, err;
        }
      }
      issued := issued + [SetAttr(dir, id)];
      err := host.setAttr;
    }

    /** `quotaon` unless quota is already on; the device enters the memo either way. */
    method TurnQuotaOn(dev: nat, mp: string, host: Host) returns (mountPoint: string, err: Outcome)
      requires Valid()
      modifies this
      ensures Valid()
      ensures var o := SwitchOn(old(mountPoints), dev, mp, host);
              && mountPoint == o.mountPoint && err == o.err
              && mountPoints == o.memo && issued == old(issued) + o.cmds
      ensures quotaLastId == old(quotaLastId) && quotaIds == old(quotaIds)
    {
      if Contains(host.quotaStatus, " is on") {
        mountPoints := mountPoints[dev := mp];
        return mp, Pass;
      }
      issued := issued + [QuotaOn(mp)];
      mountPoint, err := mp, host.quotaOn;
      if err.Fail? {
        mountPoint := "";
      }
      mountPoints := mountPoints[dev := mountPoint];
    }
  }

  /**
   * The ids of a backend lie in (lo, hi]. When hi is the largest uint32 the
   * search counter can wrap around to 0, and 0 may be in use too.
   */
  predicate IdsInRange(ids: map<nat, nat>, lo: nat, hi: nat) {
    forall k :: k in ids ==> lo < k <= hi || (k == 0 && hi == TWO_32 - 1)
  }

  // ---------------------------------------------------------------------------
  // Loading the ids in use

  /** The id a `repquota -gan` line contributes: a `#` row whose id lies in (lo, hi]. */
  function RowId(line: string, lo: nat, hi: nat): (r: Option<nat>)
    ensures r.Some? ==> lo < r.value <= hi && RepquotaId(line) == r
    ensures RepquotaId(line).Some? && lo < RepquotaId(line).value <= hi ==> r == RepquotaId(line)
  {
    var uid := RepquotaId(line);
    if uid.Some? && lo < uid.value <= hi then uid else None
  }

  /** The ids the loader records from `lines`, in report order. */
  function ReportIds(lines: seq<string>, lo: nat, hi: nat): (r: seq<nat>)
    ensures forall i :: 0 <= i < |r| ==> lo < r[i] <= hi
  {
    if |lines| == 0 then []
    else
      var front := ReportIds(lines[..|lines| - 1], lo, hi);
      var last := RowId(lines[|lines| - 1], lo, hi);
      if last.Some? then front + [last.value] else front
  }

  /** `ids` with every id of `xs` set to a use count of 1. */
  function MarkUsed(ids: map<nat, nat>, xs: seq<nat>): map<nat, nat> {
    if |xs| == 0 then ids else MarkUsed(ids, xs[..|xs| - 1])[xs[|xs| - 1] := 1]
  }

  /** The largest of `m` and the elements of `xs`. */
  function MaxId(m: nat, xs: seq<nat>): nat {
    if |xs| == 0 then m
    else
      var front := MaxId(m, xs[..|xs| - 1]);
      if xs[|xs| - 1] > front then xs[|xs| - 1] else front
  }

  /** What `loadQuotaIds` returns and leaves in `quotaIds`. */
  function Load(report: Result<string>, lo: nat, hi: nat, ids: map<nat, nat>): (r: (nat, map<nat, nat>, Outcome))
    ensures r.0 == lo || lo < r.0 <= hi
  {
    if report.Err? then (lo, ids, Fail(report.error))
    else
      var xs := ReportIds(Split(report.value, '\n'), lo, hi);
      MaxIdBounds(lo, xs);
      (MaxId(lo, xs), MarkUsed(ids, xs), Pass)
  }

  /**
   * The loop of `loadQuotaIds` over the report lines: the ids in (lo, hi]
   * marked used in `ids0`, and the largest of them, or lo.
   */
  method ScanReport(lines: seq<string>, lo: nat, hi: nat, ids0: map<nat, nat>) returns (ids: map<nat, nat>, minId: nat)
    ensures ids == MarkUsed(ids0, ReportIds(lines, lo, hi))
    ensures minId == MaxId(lo, ReportIds(lines, lo, hi))
  {
    ids, minId := ids0, lo;
    var i := 0;
    while i < |lines|
      invariant 0 <= i <= |lines|
      invariant ids == MarkUsed(ids0, ReportIds(lines[..i], lo, hi))
      invariant minId == MaxId(lo, ReportIds(lines[..i], lo, hi))
    {
      LoadStep(lines, i, lo, hi, ids0);
      var uid := RepquotaId(lines[i]);
      if uid.Some? && lo < uid.value <= hi {
        ids := ids[uid.value := 1];
        if uid.value > minId {
          minId := uid.value;
        }
      }
      i := i + 1;
    }
    assert lines[..i] == lines;
  }

  /** One more line of the report: the loader's state after `lines[..i + 1]` from its state after `lines[..i]`. */
  lemma LoadStep(lines: seq<string>, i: nat, lo: nat, hi: nat, ids: map<nat, nat>)
    requires i < |lines|
    ensures var xs, r := ReportIds(lines[..i], lo, hi), RowId(lines[i], lo, hi);
            && ReportIds(lines[..i + 1], lo, hi) == (if r.Some? then xs + [r.value] else xs)
            && MarkUsed(ids, ReportIds(lines[..i + 1], lo, hi)) == (if r.Some? then MarkUsed(ids, xs)[r.value := 1] else MarkUsed(ids, xs))
            && MaxId(lo, ReportIds(lines[..i + 1], lo, hi)) == (if r.Some? && r.value > MaxId(lo, xs) then r.value else MaxId(lo, xs))
  {
    assert lines[..i + 1][..i] == lines[..i];
    var xs, r := ReportIds(lines[..i], lo, hi), RowId(lines[i], lo, hi);
    if r.Some? {
      assert (xs + [r.value])[..|xs|] == xs;
    }
  }

  lemma {:induction false} MarkUsedInRange(ids: map<nat, nat>, xs: seq<nat>, lo: nat, hi: nat)
    requires IdsInRange(ids, lo, hi)
    requires forall i :: 0 <= i < |xs| ==> lo < xs[i] <= hi
    ensures IdsInRange(MarkUsed(ids, xs), lo, hi)
  {
    if |xs| > 0 {
      MarkUsedInRange(ids, xs[..|xs| - 1], lo, hi);
    }
  }

  /** Marking keeps the old ids, adds exactly `xs`, and gives every id of `xs` the count 1. */
  lemma {:induction false} MarkUsedContents(ids: map<nat, nat>, xs: seq<nat>)
    ensures MarkUsed(ids, xs).Keys == ids.Keys + set i | 0 <= i < |xs| :: xs[i]
    ensures forall i :: 0 <= i < |xs| ==> MarkUsed(ids, xs)[xs[i]] == 1
    ensures forall k :: k in ids && k !in xs ==> MarkUsed(ids, xs)[k] == ids[k]
  {
    if |xs| > 0 {
      var front := xs[..|xs| - 1];
      MarkUsedContents(ids, front);
      assert forall k :: k in xs && k != xs[|xs| - 1] ==> k in front;
      assert (set i | 0 <= i < |xs| :: xs[i]) == (set i | 0 <= i < |front| :: front[i]) + {xs[|xs| - 1]};
    }
  }

  /** The loader's result bounds every id it recorded and is one of them, or lo. */
  lemma {:induction false} MaxIdBounds(m: nat, xs: seq<nat>)
    ensures MaxId(m, xs) >= m
    ensures forall i :: 0 <= i < |xs| ==> xs[i] <= MaxId(m, xs)
    ensures MaxId(m, xs) == m || MaxId(m, xs) in xs
  {
    if |xs| > 0 {
      MaxIdBounds(m, xs[..|xs| - 1]);
    }
  }

  /** A line is recorded exactly when it is a `#` row with an id in (lo, hi]. */
  lemma {:induction false} ReportIdsExact(lines: seq<string>, lo: nat, hi: nat, u: nat)
    ensures u in ReportIds(lines, lo, hi) <==> exists i :: 0 <= i < |lines| && RowId(lines[i], lo, hi) == Some(u)
  {
    if |lines| > 0 {
      ReportIdsExact(lines[..|lines| - 1], lo, hi, u);
      ReportIdsExactStep(lines, lo, hi, u);
    }
  }

  /** The step of `ReportIdsExact`: one more line. */
  lemma ReportIdsExactStep(lines: seq<string>, lo: nat, hi: nat, u: nat)
    requires |lines| > 0
    requires var front := lines[..|lines| - 1];
             u in ReportIds(front, lo, hi) <==> exists i :: 0 <= i < |front| && RowId(front[i], lo, hi) == Some(u)
    ensures u in ReportIds(lines, lo, hi) <==> exists i :: 0 <= i < |lines| && RowId(lines[i], lo, hi) == Some(u)
  {
    ReportIdsSnoc(lines, lo, hi, u);
    SomeRowSnoc(lines, lines[..|lines| - 1], lo, hi, u);
  }

  /** One more line records its own id, if any, after the ids of the lines before it. */
  lemma ReportIdsSnoc(lines: seq<string>, lo: nat, hi: nat, u: nat)
    requires |lines| > 0
    ensures u in ReportIds(lines, lo, hi) <==>
              u in ReportIds(lines[..|lines| - 1], lo, hi) || RowId(lines[|lines| - 1], lo, hi) == Some(u)
  {
  }

  /** Some line has id `u` exactly when some earlier line or the last one has it. */
  lemma SomeRowSnoc(lines: seq<string>, front: seq<string>, lo: nat, hi: nat, u: nat)
    requires |lines| > 0 && front == lines[..|lines| - 1]
    ensures (exists i :: 0 <= i < |lines| && RowId(lines[i], lo, hi) == Some(u)) <==>
              (exists i :: 0 <= i < |front| && RowId(front[i], lo, hi) == Some(u))
              || RowId(lines[|lines| - 1], lo, hi) == Some(u)
  {
    assert forall i :: 0 <= i < |front| ==> front[i] == lines[i];
    if exists i :: 0 <= i < |lines| && RowId(lines[i], lo, hi) == Some(u) {
      var i :| 0 <= i < |lines| && RowId(lines[i], lo, hi) == Some(u);
      assert i < |front| ==> RowId(front[i], lo, hi) == Some(u);
    }
  }

  // ---------------------------------------------------------------------------
  // The search for a free id

  const NO_FREE_ID: string := "no free quota id"

  /**
   * One probe of the folding search (the ext4 package's loop): the id after
   * `x`, where an id at or above hi is followed by lo + 1 and an id below lo
   * is first raised to lo.
   */
  function NextId(lo: nat, hi: nat, x: nat): (y: nat)
    requires lo < hi
    ensures lo < y <= hi
    ensures lo <= x < hi ==> y == x + 1
    ensures x < lo || x >= hi ==> y == lo + 1
  {
    if x < lo || x >= hi then lo + 1 else x + 1
  }

  /** The first id not in `used` among the next `fuel` probes after `x`. */
  function Search(lo: nat, hi: nat, used: set<nat>, x: nat, fuel: nat): (r: Option<nat>)
    requires lo < hi
    ensures r.Some? ==> lo < r.value <= hi && r.value !in used
    decreases fuel
  {
    if fuel == 0 then None
    else
      var y := NextId(lo, hi, x);
      if y !in used then Some(y) else Search(lo, hi, used, y, fuel - 1)
  }

  /** The k-th probe (k >= 1) of a search whose first probe is b + 1. */
  function ProbeAt(lo: nat, hi: nat, b: nat, k: nat): nat {
    if b + k <= hi then b + k else b + k - (hi - lo)
  }

  /** `y` is among the first k probes of a search whose first probe is b + 1. */
  predicate Probed(lo: nat, hi: nat, b: nat, k: nat, y: nat) {
    (1 <= y - b <= k) || (1 <= y + (hi - lo) - b <= k)
  }

  lemma {:induction false} SearchCovers(lo: nat, hi: nat, used: set<nat>, b: nat, k: nat, x: nat, fuel: nat)
    requires lo <= b < hi && 1 <= k && k + fuel <= hi - lo
    requires x == ProbeAt(lo, hi, b, k)
    requires forall y :: lo < y <= hi && Probed(lo, hi, b, k, y) ==> y in used
    requires Search(lo, hi, used, x, fuel) == None
    ensures forall y :: lo < y <= hi && Probed(lo, hi, b, k + fuel, y) ==> y in used
    decreases fuel
  {
    if fuel > 0 {
      var z := NextId(lo, hi, x);
      assert z == ProbeAt(lo, hi, b, k + 1);
      assert forall y :: lo < y <= hi && Probed(lo, hi, b, k + 1, y) ==> y in used by {
        forall y | lo < y <= hi && Probed(lo, hi, b, k + 1, y)
          ensures y in used
        {
          if !Probed(lo, hi, b, k, y) {
            assert y == z;
          }
        }
      }
      SearchCovers(lo, hi, used, b, k + 1, z, fuel - 1);
    }
  }

  /** Completeness: a search of hi - lo probes fails only when every id of (lo, hi] is in use. */
  lemma SearchFailsOnlyWhenFull(lo: nat, hi: nat, used: set<nat>, x: nat)
    requires lo < hi
    requires Search(lo, hi, used, x, hi - lo) == None
    ensures forall y :: lo < y <= hi ==> y in used
  {
    var b := if x < lo || x >= hi then lo else x;
    var z := NextId(lo, hi, x);
    assert z == ProbeAt(lo, hi, b, 1);
    assert forall y :: lo < y <= hi && Probed(lo, hi, b, 1, y) ==> y in used;
    SearchCovers(lo, hi, used, b, 1, z, hi - lo - 1);
    var n := hi - lo;
    assert forall y :: lo < y <= hi ==> Probed(lo, hi, b, n, y);
  }

  /** With every id of (lo, hi] in use no number of probes finds one: the unbounded loop of the code never ends. */
  lemma {:induction false} SearchNeverEndsWhenFull(lo: nat, hi: nat, used: set<nat>, x: nat, fuel: nat)
    requires lo < hi
    requires forall y :: lo < y <= hi ==> y in used
    ensures Search(lo, hi, used, x, fuel) == None
    decreases fuel
  {
    if fuel > 0 {
      SearchNeverEndsWhenFull(lo, hi, used, NextId(lo, hi, x), fuel - 1);
    }
  }

  /** More probes find the same id: the bounded search agrees with the unbounded loop whenever either finds one. */
  lemma {:induction false} SearchStable(lo: nat, hi: nat, used: set<nat>, x: nat, fuel: nat, more: nat)
    requires lo < hi && fuel <= more
    requires Search(lo, hi, used, x, fuel).Some?
    ensures Search(lo, hi, used, x, more) == Search(lo, hi, used, x, fuel)
    decreases fuel
  {
    var y := NextId(lo, hi, x);
    if y in used {
      SearchStable(lo, hi, used, y, fuel - 1, more - 1);
    }
  }

  // ---------------------------------------------------------------------------
  // The search as the tools package writes it

  /**
   * One turn of the tools package's loop: raise the cursor to lo, then
   * `id++` in uint32 arithmetic. There is no upper bound, so 2^32 - 1 is
   * followed by 0.
   */
  function WrapStep(lo: nat, x: nat): (y: nat)
    requires lo < TWO_32 - 1 && x < TWO_32
    ensures y < TWO_32
    ensures y == 0 || lo < y
  {
    ToUint32((if x < lo then lo else x) + 1)
  }

  /** The first id not in `used` among the next `fuel` turns of the tools loop after `x`. */
  function SearchWrap(lo: nat, used: set<nat>, x: nat, fuel: nat): (r: Option<nat>)
    requires lo < TWO_32 - 1 && x < TWO_32
    ensures r.Some? ==> r.value !in used && r.value < TWO_32 && (r.value == 0 || lo < r.value)
    decreases fuel
  {
    if fuel == 0 then None
    else
      var y := WrapStep(lo, x);
      if y !in used then Some(y) else SearchWrap(lo, used, y, fuel - 1)
  }

  /** In the order of the tools loop, 0 comes where 2^32 would: after 2^32 - 1 and before lo + 1. */
  function Lift(y: nat): nat {
    if y == 0 then TWO_32 else y
  }

  /** The uint32 ids of `used`, placed in that order. */
  ghost function LiftSet(used: set<nat>): set<nat> {
    set u | u in used && u < TWO_32 :: Lift(u)
  }

  lemma LiftSetMembers(used: set<nat>, y: nat)
    requires y < TWO_32
    ensures Lift(y) in LiftSet(used) <==> y in used
  {
    if Lift(y) in LiftSet(used) {
      var u :| u in used && u < TWO_32 && Lift(u) == Lift(y);
    }
  }

  /**
   * The tools loop is the folding search over (lo, 2^32], with the id 2^32
   * read as the uint32 0 it wraps to.
   */
  lemma {:induction false} SearchWrapIsSearch(lo: nat, used: set<nat>, x: nat, fuel: nat)
    requires 0 < lo < TWO_32 - 1 && x < TWO_32
    ensures SearchWrap(lo, used, x, fuel).None? <==> Search(lo, TWO_32, LiftSet(used), Lift(x), fuel).None?
    ensures SearchWrap(lo, used, x, fuel).Some? ==>
              Lift(SearchWrap(lo, used, x, fuel).value) == Search(lo, TWO_32, LiftSet(used), Lift(x), fuel).value
    decreases fuel
  {
    if fuel > 0 {
      var y := WrapStep(lo, x);
      assert Lift(y) == NextId(lo, TWO_32, Lift(x));
      LiftSetMembers(used, y);
      SearchWrapIsSearch(lo, used, y, fuel - 1);
    }
  }

  /**
   * Completeness of the tools loop: one full turn (2^32 - lo probes) fails
   * only when 0 and every id of (lo, 2^32 - 1] are in use.
   */
  lemma SearchWrapFailsOnlyWhenFull(lo: nat, used: set<nat>, x: nat)
    requires 0 < lo < TWO_32 - 1 && x < TWO_32
    requires SearchWrap(lo, used, x, TWO_32 - lo) == None
    ensures 0 in used
    ensures forall y :: lo < y < TWO_32 ==> y in used
  {
    SearchWrapIsSearch(lo, used, x, TWO_32 - lo);
    SearchFailsOnlyWhenFull(lo, TWO_32, LiftSet(used), Lift(x));
    LiftSetMembers(used, 0);
    forall y | lo < y < TWO_32
      ensures y in used
    {
      LiftSetMembers(used, y);
    }
  }

  /** With 0 and all of (lo, 2^32 - 1] in use, the tools loop as written never ends. */
  lemma {:induction false} SearchWrapNeverEndsWhenFull(lo: nat, used: set<nat>, x: nat, fuel: nat)
    requires lo < TWO_32 - 1 && x < TWO_32
    requires 0 in used && forall y :: lo < y < TWO_32 ==> y in used
    ensures SearchWrap(lo, used, x, fuel) == None
    decreases fuel
  {
    if fuel > 0 {
      SearchWrapNeverEndsWhenFull(lo, used, WrapStep(lo, x), fuel - 1);
    }
  }

  /** The fold loop (the ext4 package's), cut off after one turn of (lo, hi]. */
  method ProbeFolding(lo: nat, hi: nat, used: set<nat>, last: nat) returns (found: Option<nat>)
    requires lo < hi
    ensures found == Search(lo, hi, used, last, hi - lo)
  {
    var id := last;
    var probes := 0;
    while probes < hi - lo
      invariant 0 <= probes <= hi - lo
      invariant Search(lo, hi, used, last, hi - lo) == Search(lo, hi, used, id, hi - lo - probes)
    {
      id := NextId(lo, hi, id);
      probes := probes + 1;
      if id !in used {
        return Some(id);
      }
    }
    return None;
  }

  /** The uint32 loop (the tools package's), cut off after one turn of (lo, 2^32 - 1] and 0. */
  method ProbeWrapping(lo: nat, used: set<nat>, last: nat) returns (found: Option<nat>)
    requires lo < TWO_32 - 1 && last < TWO_32
    ensures found == SearchWrap(lo, used, last, TWO_32 - lo)
  {
    var id: nat := last;
    var probes := 0;
    while probes < TWO_32 - lo
      invariant 0 <= probes <= TWO_32 - lo && id < TWO_32
      invariant SearchWrap(lo, used, last, TWO_32 - lo) == SearchWrap(lo, used, id, TWO_32 - lo - probes)
    {
      id := WrapStep(lo, id);
      probes := probes + 1;
      if id !in used {
        return Some(id);
      }
    }
    return None;
  }

  // ---------------------------------------------------------------------------
  // Allocation

  /**
   * The id `getNextQuatoId` settles on after `last`, within one full turn of
   * its loop. Below the top of the uint32 range (the ext4 package's bound)
   * the loop folds from hi back to lo + 1. With hi = 2^32 - 1 (the tools
   * package, bounded only by the width of a uint32) `id++` wraps to 0, and
   * 0 is probed before lo + 1.
   */
  function FirstFree(lo: nat, hi: nat, used: set<nat>, last: nat): (r: Option<nat>)
    requires 0 < lo < hi < TWO_32 && last < TWO_32
    ensures r.Some? ==> r.value !in used && (lo < r.value <= hi || (hi == TWO_32 - 1 && r.value == 0))
  {
    if hi == TWO_32 - 1 then SearchWrap(lo, used, last, TWO_32 - lo) else Search(lo, hi, used, last, hi - lo)
  }

  /** A full turn fails only when every id the loop can reach is in use. */
  lemma FirstFreeFailsOnlyWhenFull(lo: nat, hi: nat, used: set<nat>, last: nat)
    requires 0 < lo < hi < TWO_32 && last < TWO_32
    requires FirstFree(lo, hi, used, last) == None
    ensures forall y :: lo < y <= hi ==> y in used
    ensures hi == TWO_32 - 1 ==> 0 in used
  {
    if hi == TWO_32 - 1 {
      SearchWrapFailsOnlyWhenFull(lo, used, last);
    } else {
      SearchFailsOnlyWhenFull(lo, hi, used, last);
    }
  }

  /** What `getNextQuatoId` returns and leaves in `quotaLastId` and `quotaIds`. */
  datatype Alloc = Alloc(id: nat, err: Outcome, lastId: uint32, ids: map<nat, nat>)

  function Allocate(lo: nat, hi: nat, lastId: uint32, ids: map<nat, nat>, report: Result<string>): Alloc
    requires 0 < lo < hi < TWO_32
  {
    var (last, used, e) := if lastId == 0 then Load(report, lo, hi, ids) else (lastId, ids, Pass);
    if e.Fail? then Alloc(0, e, last, used)
    else
      match FirstFree(lo, hi, used.Keys, last)
      case None => Alloc(0, Fail(NO_FREE_ID), last, used)
      case Some(y) => Alloc(y, Pass, y, used[y := 1])
  }

  /** The ids in use once `getNextQuatoId` has loaded them (if it had to). */
  function UsedBefore(lo: nat, hi: nat, lastId: nat, ids: map<nat, nat>, report: Result<string>): map<nat, nat> {
    if lastId == 0 then Load(report, lo, hi, ids).1 else ids
  }

  /**
   * A successful allocation returns an id that was not in use, records it
   * with count 1 and makes it the new `quotaLastId`. The id lies in (lo, hi],
   * or is the wrapped 0 of the uint32 loop. Allocation fails only when the
   * report cannot be loaded or when every id the loop reaches is in use.
   */
  lemma AllocateFresh(lo: nat, hi: nat, lastId: uint32, ids: map<nat, nat>, report: Result<string>)
    requires 0 < lo < hi < TWO_32
    ensures var a := Allocate(lo, hi, lastId, ids, report);
            var used := UsedBefore(lo, hi, lastId, ids, report);
            && (a.err.Pass? ==> (lo < a.id <= hi || (hi == TWO_32 - 1 && a.id == 0))
                                && a.id !in used && a.ids == used[a.id := 1] && a.lastId == a.id)
            && (a.err.Fail? ==> a.id == 0 && ((lastId == 0 && report.Err?)
                                             || ((forall y :: lo < y <= hi ==> y in used) && (hi == TWO_32 - 1 ==> 0 in used))))
  {
    var a := Allocate(lo, hi, lastId, ids, report);
    var used := UsedBefore(lo, hi, lastId, ids, report);
    if a.err.Fail? && !(lastId == 0 && report.Err?) {
      var last := if lastId == 0 then Load(report, lo, hi, ids).0 else lastId;
      FirstFreeFailsOnlyWhenFull(lo, hi, used.Keys, last);
    }
  }

  /** Two successive allocations return different ids, and the second one was not in use before either. */
  lemma AllocateTwiceDistinct(lo: nat, hi: nat, lastId: uint32, ids: map<nat, nat>, report: Result<string>)
    requires 0 < lo < hi < TWO_32
    ensures var a1 := Allocate(lo, hi, lastId, ids, report);
            var a2 := Allocate(lo, hi, a1.lastId, a1.ids, report);
            a1.err.Pass? && a2.err.Pass? ==> a1.id != a2.id && a2.id !in ids
  {
    var a1 := Allocate(lo, hi, lastId, ids, report);
    if a1.err.Pass? {
      AllocateFresh(lo, hi, lastId, ids, report);
      AllocateFresh(lo, hi, a1.lastId, a1.ids, report);
      if lastId == 0 {
        MarkUsedContents(ids, ReportIds(Split(report.value, '\n'), lo, hi));
      }
      if a1.lastId == 0 && report.Ok? {
        MarkUsedContents(a1.ids, ReportIds(Split(report.value, '\n'), lo, hi));
      }
    }
  }

  /**
   * A failed load still sets `quotaLastId` to lo, so the next call searches
   * without loading: the report is read at most once even when it failed.
   */
  lemma FailedLoadIsNotRetried(lo: nat, hi: nat, ids: map<nat, nat>, e: string, report: Result<string>)
    requires 0 < lo < hi < TWO_32
    ensures var a1 := Allocate(lo, hi, 0, ids, Err(e));
            && a1.err == Fail(e) && a1.lastId == lo && a1.ids == ids
            && Allocate(lo, hi, a1.lastId, a1.ids, report) == Allocate(lo, hi, lo, ids, Ok(""))
  {
  }

  // ---------------------------------------------------------------------------
  // Binding a directory to an id

  /** What `setSubtree` returns, and the package variables it leaves. */
  datatype Binding = Binding(id: nat, err: Outcome, vars: Vars)

  function Subtree(lo: nat, hi: nat, v: Vars, dir: string, qid: nat, host: Host): Binding
    requires 0 < lo < hi < TWO_32
  {
    var bound := FileAttrId(Attr(host, dir));
    if qid == 0 && bound > 0 then Binding(bound, Pass, v)
    else if qid == 0 then
      var a := Allocate(lo, hi, v.lastId, v.ids, host.report);
      var w := v.(lastId := a.lastId, ids := a.ids);
      if a.err.Fail? then Binding(0, a.err, w)
      else Binding(a.id, host.setAttr, w.(issued := w.issued + [SetAttr(dir, a.id)]))
    else Binding(qid, host.setAttr, v.(issued := v.issued + [SetAttr(dir, qid)]))
  }

  /**
   * A directory whose attribute already holds an id keeps it when asked for
   * id 0: nothing is allocated and nothing is written. Otherwise the id
   * returned is exactly the one written to the attribute: the requested one,
   * or a fresh one when the request was 0. A failed allocation returns id 0
   * and writes nothing; the uint32 loop can also allocate the id 0 itself,
   * which is then written like any other.
   */
  lemma SubtreeBinds(lo: nat, hi: nat, v: Vars, dir: string, qid: nat, host: Host)
    requires 0 < lo < hi < TWO_32
    ensures var b := Subtree(lo, hi, v, dir, qid, host);
            var bound := FileAttrId(Attr(host, dir));
            && (qid == 0 && bound > 0 ==> b == Binding(bound, Pass, v))
            && (qid != 0 ==> b.id == qid && b.vars.issued == v.issued + [SetAttr(dir, qid)]
                             && b.vars.ids == v.ids && b.vars.lastId == v.lastId && b.err == host.setAttr)
            && (qid == 0 && bound == 0 ==>
                  var a := Allocate(lo, hi, v.lastId, v.ids, host.report);
                  var used := UsedBefore(lo, hi, v.lastId, v.ids, host.report);
                  && (a.err.Fail? ==> b.id == 0 && b.err == a.err && b.vars.issued == v.issued)
                  && (a.err.Pass? ==> && b.id == a.id && b.err == host.setAttr
                                      && (lo < b.id <= hi || (hi == TWO_32 - 1 && b.id == 0))
                                      && b.id !in used && b.vars.ids == used[b.id := 1] && b.vars.lastId == b.id
                                      && b.vars.issued == v.issued + [SetAttr(dir, b.id)]))
            && b.vars.memo == v.memo
  {
    AllocateFresh(lo, hi, v.lastId, v.ids, host.report);
  }

  // ---------------------------------------------------------------------------
  // The per-device bootstrap

  /** What the bootstrap returns, leaves in `mountPoints`, and sends to the host. */
  datatype Start = Start(mountPoint: string, err: Outcome, memo: map<nat, string>, cmds: seq<Command>)

  /** The commands that create a missing quota file, up to and including the first failure. */
  function QuotaFileCommands(mp: string, filename: string, vfsVersion: string, host: Host): (r: (seq<Command>, Outcome))
    ensures forall p, d :: WriteFile(p, d) in r.0 ==> p == filename && d == QuotaFileHeader(vfsVersion)
    ensures r.1.Fail? <==> host.writeFile.Fail? || host.setGrace.Fail? || host.setQuota.Fail?
  {
    var written := [RemoveFile(mp + "/aquota.user"), WriteFile(filename, QuotaFileHeader(vfsVersion))];
    if host.writeFile.Fail? then (written, host.writeFile)
    else if host.setGrace.Fail? then (written + [SetGrace(mp), RemoveFile(filename)], host.setGrace)
    else if host.setQuota.Fail? then (written + [SetGrace(mp), SetUserQuota(0, 0, mp), RemoveFile(filename)], host.setQuota)
    else (written + [SetGrace(mp), SetUserQuota(0, 0, mp)], Pass)
  }

  function Started(memo: map<nat, string>, dir: string, host: Host): Start {
    var dev := StatDev(host, dir);
    if dev.Err? then Start("", Fail(dev.error), memo, [])
    else if dev.value in memo then Start(memo[dev.value], Pass, memo, [])
    else FirstStart(memo, dev.value, dir, host)
  }

  /** The variables once the bootstrap `s` has run. */
  function AfterStart(v: Vars, s: Start): Vars {
    v.(memo := s.memo, issued := v.issued + s.cmds)
  }

  /** The bootstrap of device `dev`, not in the memo yet, which holds `dir`. */
  function FirstStart(memo: map<nat, string>, dev: nat, dir: string, host: Host): Start
    requires dev !in memo
  {
    var (mp, hasQuota, _) := MountCheck(host.mounts, host.devIds, dev);
    if mp == "" then Start("", Fail("mountPoint not found: " + dir), memo, [])
    else Found(memo, dev, mp, hasQuota, QuotaSettingsOf(host.mountsAgain, host.devIds, dev), host)
  }

  lemma ConcatAssoc<T>(a: seq<T>, b: seq<T>, c: seq<T>)
    ensures a + b + c == a + (b + c)
  {
  }

  /** The bootstrap once the mount point is known: a remount unless it has `grpquota`, then `Settle`. */
  function Found(memo: map<nat, string>, dev: nat, mp: string, hasQuota: bool, settings: Result<(string, string)>, host: Host): Start
    requires mp != "" && dev !in memo
  {
    var s := Settle(memo, dev, mp, settings, host);
    Start(s.mountPoint, s.err, s.memo, (if hasQuota then [] else [Remount(mp)]) + s.cmds)
  }

  /** With the quota format and file name from the mount table read afresh, `Enable`; nothing when that read fails. */
  function Settle(memo: map<nat, string>, dev: nat, mp: string, settings: Result<(string, string)>, host: Host): Start
    requires mp != "" && dev !in memo
  {
    match settings
    case Err(e) => Start("", Fail(e), memo, [])
    case Ok(names) => Enable(memo, dev, mp, names.0, names.1, host)
  }

  /**
   * Switching group quota on for mount point `mp` of a device not yet in the
   * memo. The device enters the memo only past the quota file, with the
   * mount point once quota is on and with "" when `quotaon` fails; a header
   * is written only where the quota file is missing.
   */
  function Enable(memo: map<nat, string>, dev: nat, mp: string, vfsVersion: string, quotaFilename: string, host: Host): (s: Start)
    requires mp != "" && dev !in memo
    ensures s.memo == memo || s.memo == memo[dev := s.mountPoint]
    ensures s.memo != memo ==> (s.err.Pass? <==> s.mountPoint != "")
    ensures s.err.Pass? ==> s.memo != memo && s.mountPoint == mp
    ensures forall p, d :: WriteFile(p, d) in s.cmds ==>
              p == mp + "/" + quotaFilename && p !in host.quotaFiles && d == QuotaFileHeader(vfsVersion)
  {
    var filename := mp + "/" + quotaFilename;
    var (created, e) :=
      if filename in host.quotaFiles then ([], Pass)
      else QuotaFileCommands(mp, filename, vfsVersion, host);
    if e.Fail? then Start(mp, e, memo, created)
    else
      var on := SwitchOn(memo, dev, mp, host);
      on.(cmds := created + on.cmds)
  }

  /** The last step of the bootstrap: `quotaon` unless `quotaon -pg` reports quota on, then the memo entry. */
  function SwitchOn(memo: map<nat, string>, dev: nat, mp: string, host: Host): Start {
    if Contains(host.quotaStatus, " is on") then Start(mp, Pass, memo[dev := mp], [])
    else if host.quotaOn.Fail? then Start("", host.quotaOn, memo[dev := ""], [QuotaOn(mp)])
    else Start(mp, Pass, memo[dev := mp], [QuotaOn(mp)])
  }

  /** A device already in the memo is answered from it, with no command sent. */
  lemma StartedFromMemo(memo: map<nat, string>, dir: string, host: Host)
    requires dir in host.devIds && host.devIds[dir] in memo
    ensures Started(memo, dir, host) == Start(memo[host.devIds[dir]], Pass, memo, [])
  {
  }

  /**
   * The bootstrap only ever adds the device of `dir` to the memo, and once it
   * has, a second call returns the same mount point without an error and
   * without sending anything: starting twice is starting once.
   */
  lemma StartedIdempotent(memo: map<nat, string>, dir: string, host: Host)
    ensures var s := Started(memo, dir, host);
            && (forall d :: d in memo ==> d in s.memo && s.memo[d] == memo[d])
            && (forall d :: d in s.memo && d !in memo ==> dir in host.devIds && d == host.devIds[dir])
            && (s.memo != memo ==> Started(s.memo, dir, host) == Start(s.mountPoint, Pass, s.memo, []))
  {
  }

  /**
   * A mount point is memoised only once quota is on; when `quotaon` fails the
   * device is memoised with an empty mount point, which every later call
   * returns without an error.
   */
  lemma StartedFailureIsRemembered(memo: map<nat, string>, dir: string, host: Host, later: Host)
    requires dir in host.devIds && host.devIds[dir] !in memo
    requires later.devIds == host.devIds
    ensures var s := Started(memo, dir, host);
            && (s.memo != memo && s.mountPoint != "" ==> Contains(host.quotaStatus, " is on") || host.quotaOn.Pass?)
            && (s.err.Fail? && s.memo != memo ==> Started(s.memo, dir, later) == Start("", Pass, s.memo, []))
  {
  }

  /**
   * A fresh quota file is written only where there was none, under the name
   * the mount options give, with the 32-byte header whose version byte is 1
   * exactly when the mount options ask for format vfsv1.
   */
  lemma StartedHeader(memo: map<nat, string>, dir: string, host: Host, path: string, data: seq<bv8>)
    requires WriteFile(path, data) in Started(memo, dir, host).cmds
    ensures path !in host.quotaFiles
    ensures dir in host.devIds
    ensures var settings := QuotaSettingsOf(host.mountsAgain, host.devIds, host.devIds[dir]);
            && settings.Ok?
            && |data| == 32
            && (data[4] == 1 <==> settings.value.0 == "vfsv1")
  {
  }
}
