/**
 * The quota helpers the volume code calls (stone_plugin/tools/quota.go):
 * quota ids above 16777216 with no upper bound but the width of a uint32,
 * bound to a directory through its `system.subtree` attribute, with limits
 * set by `setquota -g`.
 *
 * The package variables are a `QuotaCommon.QuotaGlobals` over
 * (16777216, 2^32 - 1].
 */
module ToolsQuota {
  import opened Wrappers
  import opened GoStrconv
  import opened QuotaText
  import opened QuotaCommon
  import opened GoStrings

  const QUOTA_MIN_ID: nat := 16777216
  /** The largest uint32: the implicit upper bound of the id range. */
  const QUOTA_TOP_ID: nat := TWO_32 - 1

  predicate ToolsGlobals(g: QuotaGlobals)
    reads g
  {
    g.lo == QUOTA_MIN_ID && g.hi == QUOTA_TOP_ID
  }

  // ---------------------------------------------------------------------------
  // The id search: uint32 `id++` with no upper bound

  /**
   * From 2^32 - 1 the loop as written steps to 0, which is not in use unless
   * the counter wrapped before: `GetNextQuatoId` hands out id 0, records it
   * and leaves `quotaLastId` at 0, so the next call loads the report again.
   */
  lemma AllocateWrapsToZero(ids: map<nat, nat>, report: Result<string>)
    requires 0 !in ids
    ensures WrapStep(QUOTA_MIN_ID, QUOTA_TOP_ID) == 0
    ensures Allocate(QUOTA_MIN_ID, QUOTA_TOP_ID, QUOTA_TOP_ID, ids, report) == Alloc(0, Pass, 0, ids[0 := 1])
  {
  }

  /**
   * The report row `#-1` passes `strconv.Atoi` and becomes the uint32
   * 4294967295, which passes the minimum test: the first allocation after
   * loading that report returns 0.
   */
  lemma MinusOneRowAllocatesZero()
    ensures RepquotaId("#-1") == Some(QUOTA_TOP_ID)
    ensures Allocate(QUOTA_MIN_ID, QUOTA_TOP_ID, 0, map[], Ok("#-1")) == Alloc(0, Pass, 0, map[QUOTA_TOP_ID := 1, 0 := 1])
  {
    assert Split("#-1", ' ') == ["#-1"];
    assert Split("#-1", '\n') == ["#-1"];
    assert Atoi("-1") == Parsed(-1);
    var lines := Split("#-1", '\n');
    assert ReportIds(lines, QUOTA_MIN_ID, QUOTA_TOP_ID) == [QUOTA_TOP_ID] by {
      assert lines[..0] == [];
    }
    assert Load(Ok("#-1"), QUOTA_MIN_ID, QUOTA_TOP_ID, map[]) == (QUOTA_TOP_ID, map[QUOTA_TOP_ID := 1], Pass) by {
      assert [QUOTA_TOP_ID][..0] == [];
      assert MaxId(QUOTA_MIN_ID, [QUOTA_TOP_ID]) == QUOTA_TOP_ID;
      assert MarkUsed(map[], [QUOTA_TOP_ID]) == map[QUOTA_TOP_ID := 1];
    }
    assert FirstFree(QUOTA_MIN_ID, QUOTA_TOP_ID, {QUOTA_TOP_ID}, QUOTA_TOP_ID) == Some(0);
  }

  /**
   * The evidently intended search: fold from 2^32 - 1 back to 16777217, so
   * that every id it returns lies in (16777216, 2^32 - 1], and it fails only
   * when all of them are in use.
   */
  function NextFreeCorrected(used: set<nat>, last: nat): (r: Option<nat>)
    ensures r.Some? ==> QUOTA_MIN_ID < r.value <= QUOTA_TOP_ID && r.value != 0 && r.value !in used
    ensures r.None? ==> forall y :: QUOTA_MIN_ID < y <= QUOTA_TOP_ID ==> y in used
  {
    var r := Search(QUOTA_MIN_ID, QUOTA_TOP_ID, used, last, QUOTA_TOP_ID - QUOTA_MIN_ID);
    if r.None? then
      SearchFailsOnlyWhenFull(QUOTA_MIN_ID, QUOTA_TOP_ID, used, last);
      r
    else r
  }

  // ---------------------------------------------------------------------------
  // SetDiskQuota

  /**
   * `SetDiskQuota(dir, size, quotaId)`: bootstrap the device of `dir`, bind
   * `dir` to `uint32(quotaId)` (or, for 0, to its bound or a fresh id), and
   * set the limit `toByteSize(size)` for the bound id.
   */
  function DiskQuotaSet(v: Vars, dir: string, size: string, quotaId: int, host: Host): (Vars, Outcome) {
    var s := Started(v.memo, dir, host);
    var w := AfterStart(v, s);
    if s.err.Fail? then (w, s.err)
    else if s.mountPoint == "" then (w, Fail("mountpoint not found: " + dir))
    else
      var b := Subtree(QUOTA_MIN_ID, QUOTA_TOP_ID, w, dir, ToUint32(quotaId), host);
      if b.id == 0 then (b.vars, Fail("subtree not found: " + dir + " " + ErrorText(b.err)))
      else (b.vars.(issued := b.vars.issued + [SetUserQuota(b.id, ToByteSize(size), s.mountPoint)]), host.setQuota)
  }

  /** `SetDiskQuota`. */
  method SetDiskQuota(g: QuotaGlobals, dir: string, size: string, quotaId: int, host: Host) returns (err: Outcome)
    requires g.Valid() && ToolsGlobals(g)
    modifies g
    ensures g.Valid()
    ensures (g.State(), err) == DiskQuotaSet(old(g.State()), dir, size, quotaId, host)
  {
    var mountPoint, e := g.DriverStart(dir, host);
    if e.Fail? {
      return e;
    }
    if |mountPoint| == 0 {
      return Fail("mountpoint not found: " + dir);
    }
    var id, bindErr := g.SetSubtree(dir, ToUint32(quotaId), host);
    if id == 0 {
      return Fail("subtree not found: " + dir + " " + ErrorText(bindErr));
    }
    var limit := ToByteSize(size);
    g.issued := g.issued + [SetUserQuota(id, limit, mountPoint)];
    err := host.setQuota;
  }

  // ---------------------------------------------------------------------------
  // Properties

  /**
   * With an explicit id, `SetDiskQuota` writes that id to the attribute and
   * sets the limit for it; the outcome of the attribute write is not looked
   * at, and nothing is allocated.
   */
  lemma DiskQuotaSetWithId(v: Vars, dir: string, size: string, quotaId: int, host: Host)
    ensures var (w, err) := DiskQuotaSet(v, dir, size, quotaId, host);
            var s := Started(v.memo, dir, host);
            var q := ToUint32(quotaId);
            s.err.Pass? && s.mountPoint != "" && q != 0 ==>
              && w.lastId == v.lastId && w.ids == v.ids && w.memo == s.memo
              && w.issued == v.issued + s.cmds + [SetAttr(dir, q), SetUserQuota(q, ToByteSize(size), s.mountPoint)]
              && err == host.setQuota
  {
    var s := Started(v.memo, dir, host);
    SubtreeBinds(QUOTA_MIN_ID, QUOTA_TOP_ID, AfterStart(v, s), dir, ToUint32(quotaId), host);
  }

  /** With id 0, a directory already bound to an id keeps it: the limit is sent for that id. */
  lemma DiskQuotaSetKeepsBinding(v: Vars, dir: string, size: string, quotaId: int, host: Host)
    ensures var (w, err) := DiskQuotaSet(v, dir, size, quotaId, host);
            var s := Started(v.memo, dir, host);
            var bound := FileAttrId(Attr(host, dir));
            s.err.Pass? && s.mountPoint != "" && ToUint32(quotaId) == 0 && bound != 0 ==>
              w == AfterStart(v, s).(issued := v.issued + s.cmds + [SetUserQuota(bound, ToByteSize(size), s.mountPoint)])
              && err == host.setQuota
  {
    var s := Started(v.memo, dir, host);
    SubtreeBinds(QUOTA_MIN_ID, QUOTA_TOP_ID, AfterStart(v, s), dir, 0, host);
  }

  /**
   * With id 0, an unbound directory gets the id the allocator settles on.
   * A fresh id of (16777216, 2^32 - 1] is bound and limited. The wrapped
   * id 0 is written to the attribute and recorded, but then reported as
   * "subtree not found" with no limit set. A failed allocation is reported
   * the same way, with nothing sent.
   */
  lemma DiskQuotaSetWithoutId(v: Vars, dir: string, size: string, quotaId: int, host: Host)
    ensures var (w, err) := DiskQuotaSet(v, dir, size, quotaId, host);
            var s := Started(v.memo, dir, host);
            var a := Allocate(QUOTA_MIN_ID, QUOTA_TOP_ID, v.lastId, v.ids, host.report);
            var used := UsedBefore(QUOTA_MIN_ID, QUOTA_TOP_ID, v.lastId, v.ids, host.report);
            s.err.Pass? && s.mountPoint != "" && ToUint32(quotaId) == 0 && FileAttrId(Attr(host, dir)) == 0 ==>
              && (a.err.Pass? && a.id != 0 ==>
                    && QUOTA_MIN_ID < w.lastId <= QUOTA_TOP_ID && w.lastId == a.id && w.lastId !in used && w.ids == used[w.lastId := 1]
                    && w.issued == v.issued + s.cmds + [SetAttr(dir, w.lastId), SetUserQuota(w.lastId, ToByteSize(size), s.mountPoint)]
                    && err == host.setQuota)
              && (a.err.Pass? && a.id == 0 ==>
                    && w.lastId == 0 && 0 !in used && w.ids == used[0 := 1]
                    && w.issued == v.issued + s.cmds + [SetAttr(dir, 0)]
                    && err == Fail("subtree not found: " + dir + " " + ErrorText(host.setAttr)))
              && (a.err.Fail? ==>
                    && w.issued == v.issued + s.cmds
                    && err == Fail("subtree not found: " + dir + " " + ErrorText(a.err)))
  {
    var s := Started(v.memo, dir, host);
    SubtreeBinds(QUOTA_MIN_ID, QUOTA_TOP_ID, AfterStart(v, s), dir, 0, host);
    AllocateFresh(QUOTA_MIN_ID, QUOTA_TOP_ID, v.lastId, v.ids, host.report);
  }

  /**
   * A size string `toByteSize` cannot read gives a limit of 0, which
   * `setquota` reads as no limit: a successful call ends with a command that
   * lifts the limit of the bound id.
   */
  lemma DiskQuotaSetMalformedSize(v: Vars, dir: string, size: string, quotaId: int, host: Host)
    requires !PositiveSize(GoStrings.TrimSpace(size))
    ensures var (w, err) := DiskQuotaSet(v, dir, size, quotaId, host);
            err.Pass? && |w.issued| > |v.issued| ==>
              var last := w.issued[|w.issued| - 1];
              last.SetUserQuota? && last.limit == 0 && last.quotaId != 0
  {
    ToByteSizeZeroIff(size);
  }
}
