/**
 * The ext4 group-quota backend (stone_plugin/quota/ext4quota.go): quota ids
 * in (20971521, 23068672], bound to a directory through its
 * `system.subtree` attribute, with limits set by `setquota -g`.
 *
 * The backend's state is the package variables of `QuotaCommon.QuotaGlobals`
 * over that range; each operation is a method on it, proved against a
 * function from the old variables to the new ones and the result.
 */
module Ext4Quota {
  import opened Wrappers
  import opened GoStrconv
  import opened QuotaText
  import opened QuotaCommon

  const QUOTA_MIN_ID: nat := 20971521
  const QUOTA_MAX_ID: nat := 23068672

  /** `Name()`. */
  const QUOTA_EXT4: string := "ext4"

  /** The variables of this backend: a `QuotaGlobals` over the ext4 id range. */
  predicate Ext4Globals(g: QuotaGlobals)
    reads g
  {
    g.lo == QUOTA_MIN_ID && g.hi == QUOTA_MAX_ID
  }

  // ---------------------------------------------------------------------------
  // The search step as written

  /**
   * One turn of the `getNextQuatoId` loop in uint32 arithmetic: raise an id
   * below the minimum to it, add one, and fold an id past the maximum back
   * with `id % max + min`.
   */
  function Ext4Step(x: nat): (y: nat)
    requires x < TWO_32
  {
    var a := if x < QUOTA_MIN_ID then QUOTA_MIN_ID else x;
    var b := ToUint32(a + 1);
    if b > QUOTA_MAX_ID then b % QUOTA_MAX_ID + QUOTA_MIN_ID else b
  }

  /**
   * From any id the cursor can hold (at most the maximum) the step is
   * `NextId` over (min, max]: the successor, and min + 1 after max.
   */
  lemma Ext4StepIsNextId(x: nat)
    requires x <= QUOTA_MAX_ID
    ensures Ext4Step(x) == NextId(QUOTA_MIN_ID, QUOTA_MAX_ID, x)
    ensures x == QUOTA_MAX_ID ==> Ext4Step(x) == QUOTA_MIN_ID + 1
  {
  }

  // ---------------------------------------------------------------------------
  // Specifications

  /**
   * `SetQuota` with the limit already computed: bootstrap the device of
   * `path`, then set `limit` for the id its attribute holds, or for a freshly
   * allocated id that is first written to the attribute (the outcome of that
   * write is not looked at).
   */
  function ApplyLimit(v: Vars, path: string, limit: nat, host: Host): (Vars, Outcome) {
    var s := Started(v.memo, path, host);
    var w := AfterStart(v, s);
    if s.err.Fail? then (w, s.err)
    else if s.mountPoint == "" then (w, Fail("mountpoint not found: " + path))
    else
      var bound := FileAttrId(Attr(host, path));
      if bound != 0 then (w.(issued := w.issued + [SetUserQuota(bound, limit, s.mountPoint)]), host.setQuota)
      else
        var a := Allocate(QUOTA_MIN_ID, QUOTA_MAX_ID, w.lastId, w.ids, host.report);
        var x := w.(lastId := a.lastId, ids := a.ids);
        if a.err.Fail? then (x, a.err)
        else (x.(issued := x.issued + [SetAttr(path, a.id), SetUserQuota(a.id, limit, s.mountPoint)]), host.setQuota)
  }

  /**
   * What `getUserQuota` hands to the row parse: as written, everything
   * `repquota` prints (the `|`, `grep` and id it passes are arguments of
   * `repquota`, and no shell builds a pipeline from them); piped as intended,
   * only the report lines that `grep` keeps for the id.
   */
  function QuotaOutput(host: Host, quotaId: nat, piped: bool): string {
    if piped then GrepOutput(host.repquotaOut, FormatNat(quotaId)) else host.repquotaOut
  }

  /** `GetQuota`: the hard limit read for the id bound to `path`. */
  function ReadLimitFrom(v: Vars, path: string, host: Host, piped: bool): (Vars, Result<nat>) {
    var bound := FileAttrId(Attr(host, path));
    if bound == 0 then (v, Err("quota not found for path : " + path))
    else
      var s := Started(v.memo, path, host);
      var w := AfterStart(v, s);
      if s.err.Fail? then (w, Err(s.err.error))
      else if s.mountPoint == "" then (w, Err("mountpoint not found: " + path))
      else (w, UserQuotaLimit(QuotaOutput(host, bound, piped), bound, s.mountPoint))
  }

  /** `GetQuota` as written: the row parse reads the unfiltered output. */
  function ReadLimit(v: Vars, path: string, host: Host): (Vars, Result<nat>) {
    ReadLimitFrom(v, path, host, false)
  }

  /** `GetQuota` as intended: the row parse reads the lines of the report that carry the id. */
  function ReadLimitPiped(v: Vars, path: string, host: Host): (Vars, Result<nat>) {
    ReadLimitFrom(v, path, host, true)
  }

  /** `isDiskQuotaExist`: whether `quotaId` is in use, counting a second sighting. */
  function QuotaIdSeen(v: Vars, quotaId: nat, report: Result<string>): (Vars, bool, Outcome) {
    var (last, ids, e) := if v.lastId == 0 then Load(report, QUOTA_MIN_ID, QUOTA_MAX_ID, v.ids) else (v.lastId, v.ids, Pass);
    var w := v.(lastId := last, ids := ids);
    if e.Fail? then (w, false, e)
    else if quotaId !in ids then (w, false, Pass)
    else if ids[quotaId] >= 2 then (w, true, Fail("Find duplicate quota id " + FormatNat(quotaId)))
    else if ids[quotaId] == 1 then (w.(ids := ids[quotaId := 2]), true, Pass)
    else (w, true, Pass)
  }

  // ---------------------------------------------------------------------------
  // The operations

  /** `NewExt4QuotaControl`: the bootstrap of the device of `basePath`; its error is the constructor's. */
  method NewExt4QuotaControl(g: QuotaGlobals, basePath: string, host: Host) returns (err: Outcome)
    requires g.Valid() && Ext4Globals(g)
    modifies g
    ensures g.Valid()
    ensures var s := Started(old(g.mountPoints), basePath, host);
            err == s.err && g.State() == AfterStart(old(g.State()), s)
  {
    var _, e := g.DriverStart(basePath, host);
    err := e;
  }

  /** `setUserQuota`: `setquota -g <id> 0 <limit> 0 0 <mp>`. */
  method SetUserQuotaCmd(g: QuotaGlobals, quotaId: nat, limit: nat, mountPoint: string, host: Host) returns (err: Outcome)
    modifies g
    ensures g.issued == old(g.issued) + [SetUserQuota(quotaId, limit, mountPoint)]
    ensures g.quotaLastId == old(g.quotaLastId) && g.quotaIds == old(g.quotaIds) && g.mountPoints == old(g.mountPoints)
    ensures err == host.setQuota
  {
    g.issued := g.issued + [SetUserQuota(quotaId, limit, mountPoint)];
    err := host.setQuota;
  }

  /** `SetQuota` past `formatSize`. */
  method ApplyLimitTo(g: QuotaGlobals, path: string, limit: nat, host: Host) returns (err: Outcome)
    requires g.Valid() && Ext4Globals(g)
    modifies g
    ensures g.Valid()
    ensures (g.State(), err) == ApplyLimit(old(g.State()), path, limit, host)
  {
    var mountPoint, e := g.DriverStart(path, host);
    ghost var started := g.State();
    if e.Fail? {
      return e;
    }
    if |mountPoint| == 0 {
      return Fail("mountpoint not found: " + path);
    }
    var quotaId := FileAttrId(Attr(host, path));
    if quotaId == 0 {
      ghost var a := Allocate(QUOTA_MIN_ID, QUOTA_MAX_ID, g.quotaLastId, g.quotaIds, host.report);
      AllocateFresh(g.lo, g.hi, g.quotaLastId, g.quotaIds, host.report);
      quotaId, e := g.NextQuotaId(host.report);
      if e.Fail? {
        return e;
      }
      ghost var drawn := g.issued;
      var bound, ignored := g.SetSubtree(path, quotaId, host);
      if bound == 0 {
        return Fail("subtree not found: " + path + " " + ErrorText(ignored));
      }
      err := SetUserQuotaCmd(g, quotaId, limit, mountPoint, host);
      ConcatAssoc(drawn, [SetAttr(path, quotaId)], [SetUserQuota(quotaId, limit, mountPoint)]);
      assert g.State() == Vars(a.lastId, a.ids, started.memo, started.issued + [SetAttr(path, quotaId), SetUserQuota(quotaId, limit, mountPoint)]);
    } else {
      err := SetUserQuotaCmd(g, quotaId, limit, mountPoint, host);
    }
  }

  /** `SetQuota`: the limit is the size in whole KiB, at least 1. */
  method SetQuota(g: QuotaGlobals, path: string, size: nat, host: Host) returns (err: Outcome)
    requires g.Valid() && Ext4Globals(g)
    modifies g
    ensures g.Valid()
    ensures (g.State(), err) == ApplyLimit(old(g.State()), path, FormatSize(size), host)
  {
    err := ApplyLimitTo(g, path, FormatSize(size), host);
  }

  /** `RemoveQuota` as written: `SetQuota` with size 0, which sends a limit of 1 KiB. */
  method RemoveQuotaAsWritten(g: QuotaGlobals, path: string, host: Host) returns (err: Outcome)
    requires g.Valid() && Ext4Globals(g)
    modifies g
    ensures g.Valid()
    ensures (g.State(), err) == ApplyLimit(old(g.State()), path, 1, host)
  {
    err := SetQuota(g, path, 0, host);
  }

  /** `RemoveQuota` as intended: a hard limit of 0, which `setquota` reads as no limit. */
  method RemoveQuota(g: QuotaGlobals, path: string, host: Host) returns (err: Outcome)
    requires g.Valid() && Ext4Globals(g)
    modifies g
    ensures g.Valid()
    ensures (g.State(), err) == ApplyLimit(old(g.State()), path, 0, host)
  {
    err := ApplyLimitTo(g, path, 0, host);
  }

  /** `GetQuota`. */
  method GetQuota(g: QuotaGlobals, path: string, host: Host) returns (r: Result<nat>)
    requires g.Valid() && Ext4Globals(g)
    modifies g
    ensures g.Valid()
    ensures (g.State(), r) == ReadLimit(old(g.State()), path, host)
  {
    var quotaId := FileAttrId(Attr(host, path));
    if quotaId == 0 {
      return Err("quota not found for path : " + path);
    }
    var mountPoint, e := g.DriverStart(path, host);
    if e.Fail? {
      return Err(e.error);
    }
    if |mountPoint| == 0 {
      return Err("mountpoint not found: " + path);
    }
    r := UserQuotaLimit(host.repquotaOut, quotaId, mountPoint);
  }

  /** `isDiskQuotaExist`. */
  method IsDiskQuotaExist(g: QuotaGlobals, quotaId: nat, report: Result<string>) returns (exists_: bool, err: Outcome)
    requires g.Valid() && Ext4Globals(g)
    modifies g
    ensures g.Valid()
    ensures (g.State(), exists_, err) == QuotaIdSeen(old(g.State()), quotaId, report)
  {
    if g.quotaLastId == 0 {
      var loaded, e := g.LoadQuotaIds(report);
      g.quotaLastId := loaded;
      if e.Fail? {
        return false, e;
      }
    }
    if quotaId in g.quotaIds {
      var count := g.quotaIds[quotaId];
      if count >= 2 {
        return true, Fail("Find duplicate quota id " + FormatNat(quotaId));
      }
      if count == 1 {
        g.quotaIds := g.quotaIds[quotaId := count + 1];
      }
      return true, Pass;
    }
    return false, Pass;
  }

  // ---------------------------------------------------------------------------
  // Properties

  /**
   * A directory already bound to an id keeps it: nothing is allocated and the
   * one command after the bootstrap sets the limit for that id on the mount
   * point the bootstrap found.
   */
  lemma ApplyLimitReusesBoundId(v: Vars, path: string, limit: nat, host: Host)
    ensures var (w, err) := ApplyLimit(v, path, limit, host);
            var s := Started(v.memo, path, host);
            var bound := FileAttrId(Attr(host, path));
            s.err.Pass? && s.mountPoint != "" && bound != 0 ==>
              && w.lastId == v.lastId && w.ids == v.ids
              && w.issued == v.issued + s.cmds + [SetUserQuota(bound, limit, s.mountPoint)]
              && err == host.setQuota
  {
  }

  /**
   * An unbound directory gets a fresh id of (min, max]: it is written to the
   * attribute and then given the limit, becomes the cursor and is recorded as
   * used. The call fails without sending anything past the bootstrap only
   * when the ids cannot be loaded or every id is in use.
   */
  lemma ApplyLimitBindsFreshId(v: Vars, path: string, limit: nat, host: Host)
    ensures var (w, err) := ApplyLimit(v, path, limit, host);
            var s := Started(v.memo, path, host);
            var bound := FileAttrId(Attr(host, path));
            var used := UsedBefore(QUOTA_MIN_ID, QUOTA_MAX_ID, v.lastId, v.ids, host.report);
            s.err.Pass? && s.mountPoint != "" && bound == 0 ==>
              || (&& w.lastId > QUOTA_MIN_ID && w.lastId <= QUOTA_MAX_ID
                  && w.lastId !in used && w.ids == used[w.lastId := 1]
                  && w.issued == v.issued + s.cmds + [SetAttr(path, w.lastId), SetUserQuota(w.lastId, limit, s.mountPoint)]
                  && err == host.setQuota)
              || (&& err.Fail? && w.issued == v.issued + s.cmds
                  && ((v.lastId == 0 && host.report.Err?) || forall y :: QUOTA_MIN_ID < y <= QUOTA_MAX_ID ==> y in used))
  {
    AllocateFresh(QUOTA_MIN_ID, QUOTA_MAX_ID, v.lastId, v.ids, host.report);
  }

  /** No limit is ever sent before the device is bootstrapped and its mount point known. */
  lemma ApplyLimitNeedsMountPoint(v: Vars, path: string, limit: nat, host: Host)
    ensures var (w, err) := ApplyLimit(v, path, limit, host);
            var s := Started(v.memo, path, host);
            (s.err.Fail? || s.mountPoint == "") ==>
              && err.Fail? && w.issued == v.issued + s.cmds
              && w.lastId == v.lastId && w.ids == v.ids
              && (s.err.Pass? ==> err == Fail("mountpoint not found: " + path))
  {
  }

  /** `RemoveQuota` as written sets a hard limit of 1 KiB rather than lifting the limit. */
  lemma RemoveQuotaAsWrittenCapsAtOneKiB(v: Vars, path: string, host: Host)
    ensures FormatSize(0) == 1
    ensures var s := Started(v.memo, path, host);
            var bound := FileAttrId(Attr(host, path));
            s.err.Pass? && s.mountPoint != "" && bound != 0 ==>
              ApplyLimit(v, path, FormatSize(0), host).0.issued == v.issued + s.cmds + [SetUserQuota(bound, 1, s.mountPoint)]
  {
  }

  /** `RemoveQuota` as intended sends a hard limit of 0 for the bound id. */
  lemma RemoveQuotaLiftsLimit(v: Vars, path: string, host: Host)
    ensures var s := Started(v.memo, path, host);
            var bound := FileAttrId(Attr(host, path));
            s.err.Pass? && s.mountPoint != "" && bound != 0 ==>
              ApplyLimit(v, path, 0, host).0.issued == v.issued + s.cmds + [SetUserQuota(bound, 0, s.mountPoint)]
  {
  }

  /**
   * Round trip as written: once a bound directory's limit is set, `GetQuota`
   * fails whenever `repquota` prints its report header first, because the
   * header's fifth word is "quotas" and nothing filters it out.
   */
  lemma GetQuotaReadsReportHeader(v: Vars, path: string, size: nat, host: Host, device: string, body: string)
    requires FileAttrId(Attr(host, path)) != 0
    requires ApplyLimit(v, path, FormatSize(size), host).1.Pass?
    requires |device| > 0 && GoStrings.NoSpace(device)
    requires body == [] || GoStrings.IsSpace(body[0])
    requires host.repquotaOut == GoStrings.Unwords(REPORT_HEADER + [device]) + body
    ensures var w := ApplyLimit(v, path, FormatSize(size), host).0;
            var bound := FileAttrId(Attr(host, path));
            ReadLimit(w, path, host)
            == (w, Err("error parseUint when getUserQuota with quoataId: " + FormatNat(bound) + ", mountPoint: " + Started(v.memo, path, host).mountPoint))
  {
    var s := Started(v.memo, path, host);
    var w := ApplyLimit(v, path, FormatSize(size), host).0;
    StartedIdempotent(v.memo, path, host);
    assert Started(w.memo, path, host) == Start(s.mountPoint, Pass, w.memo, []);
    var bound := FileAttrId(Attr(host, path));
    ReportHeaderIsNotALimit(device, body, bound, s.mountPoint);
    assert w.issued + [] == w.issued;
  }

  /**
   * Round trip as intended: once a bound directory's limit is set, and the
   * only report line carrying the id is its row with that limit in the fifth
   * field, the piped `GetQuota` returns the size in KiB that `SetQuota`
   * wrote, without a second bootstrap.
   */
  lemma GetQuotaPipedReadsBackSetQuota(v: Vars, path: string, size: nat, host: Host, front: seq<string>, rest: seq<string>)
    requires size < TWO_64
    requires FileAttrId(Attr(host, path)) != 0
    requires ApplyLimit(v, path, FormatSize(size), host).1.Pass?
    requires |front| == 4
    requires forall i :: 0 <= i < |front| ==> |front[i]| > 0 && GoStrings.NoSpace(front[i])
    requires forall i :: 0 <= i < |rest| ==> |rest[i]| > 0 && GoStrings.NoSpace(rest[i])
    requires MatchingLines(GoStrings.Split(host.repquotaOut, '\n'), FormatNat(FileAttrId(Attr(host, path))))
             == [GoStrings.Unwords(front + [FormatNat(FormatSize(size))] + rest)]
    ensures var w := ApplyLimit(v, path, FormatSize(size), host).0;
            ReadLimitPiped(w, path, host) == (w, Ok(FormatSize(size)))
  {
    var s := Started(v.memo, path, host);
    var w := ApplyLimit(v, path, FormatSize(size), host).0;
    StartedIdempotent(v.memo, path, host);
    assert Started(w.memo, path, host) == Start(s.mountPoint, Pass, w.memo, []);
    var bound := FileAttrId(Attr(host, path));
    UserQuotaOfGrepRow(host.repquotaOut, front, FormatSize(size), rest, bound, s.mountPoint);
    assert w.issued + [] == w.issued;
  }

  /** A path whose attribute holds no id has no quota to read, and nothing changes. */
  lemma GetQuotaUnbound(v: Vars, path: string, host: Host)
    requires FileAttrId(Attr(host, path)) == 0
    ensures ReadLimit(v, path, host) == (v, Err("quota not found for path : " + path))
  {
  }

  /**
   * An id seen once in the report is counted on its first check and reported
   * as a duplicate on the second; an id not in use is reported absent and
   * changes nothing.
   */
  lemma QuotaIdSeenTwiceIsDuplicate(v: Vars, quotaId: nat, report: Result<string>)
    requires v.lastId != 0
    ensures quotaId in v.ids && v.ids[quotaId] == 1 ==>
              var (w, seen, err) := QuotaIdSeen(v, quotaId, report);
              && seen && err.Pass? && w.ids == v.ids[quotaId := 2]
              && QuotaIdSeen(w, quotaId, report) == (w, true, Fail("Find duplicate quota id " + FormatNat(quotaId)))
    ensures quotaId !in v.ids ==> QuotaIdSeen(v, quotaId, report) == (v, false, Pass)
  {
  }
}
