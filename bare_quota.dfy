/**
 * The bare backend (stone_plugin/quota/barequota.go): a quota control that
 * enforces nothing, used when no real backend is configured.
 */
module BareQuota {
  import opened Wrappers

  /** The `Quota` record the controls exchange: `SetQuota` takes a size in bytes, `GetQuota` reports one in KiB. */
  datatype Quota = Quota(size: nat)

  const QUOTA_BARE: string := "bare"

  /** `NewBareQuotaControl`: never fails, whatever the base path. */
  function NewBareQuotaControl(basePath: string): (r: Outcome)
    ensures r.Pass?
  {
    Pass
  }

  /** `Name()`. */
  function Name(): (r: string)
    ensures r == QUOTA_BARE
  {
    QUOTA_BARE
  }

  /** `SetQuota`: accepts any limit and records nothing. */
  function SetQuota(targetPath: string, quota: Quota): (r: Outcome)
    ensures r.Pass?
  {
    Pass
  }

  /** `GetQuota`: a size of 0 for every path. */
  function GetQuota(targetPath: string): (r: Result<Quota>)
    ensures r.Ok? && r.value.size == 0
  {
    Ok(Quota(0))
  }

  /** `RemoveQuota`: succeeds for every path. */
  function RemoveQuota(targetPath: string): (r: Outcome)
    ensures r.Pass?
  {
    Pass
  }

  /**
   * The bare control keeps nothing: whatever limit is set on a path, and
   * whether or not it is removed again, reading it back gives size 0, and
   * no call fails.
   */
  lemma BareForgetsLimits(targetPath: string, quota: Quota)
    ensures SetQuota(targetPath, quota).Pass? && RemoveQuota(targetPath).Pass?
    ensures GetQuota(targetPath) == Ok(Quota(0))
  {
  }
}
