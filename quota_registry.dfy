/**
 * The quota backend registry (stone_plugin/quota/quota.go): one quota
 * control per base path, built on demand for a format name, with the bare
 * control as the fallback for a format nobody registered.
 */
module QuotaRegistry {
  import opened Wrappers
  import BareQuota
  import Ext4Quota

  const QUOTA_XFS: string := "xfs"

  /** A quota control, by the backend that built it. */
  datatype Control = Bare | Xfs | Ext4

  /** Each control's `Name()`. */
  function Name(c: Control): string {
    match c
    case Bare => BareQuota.QUOTA_BARE
    case Xfs => QUOTA_XFS
    case Ext4 => Ext4Quota.QUOTA_EXT4
  }

  /** `registerNewQuota`: the constructor registered for a format name. */
  function Registered(format: string): (r: Option<Control>)
    ensures r.Some? <==> format in {BareQuota.QUOTA_BARE, QUOTA_XFS, Ext4Quota.QUOTA_EXT4}
    ensures r.Some? ==> Name(r.value) == format
  {
    if format == BareQuota.QUOTA_BARE then Some(Bare)
    else if format == QUOTA_XFS then Some(Xfs)
    else if format == Ext4Quota.QUOTA_EXT4 then Some(Ext4)
    else None
  }

  /**
   * `NewQuota(basePath, format)`, with `made` the outcome of the registered
   * constructor (the bare one never fails): the new cache and the control
   * returned.
   */
  function Selected(controls: map<string, Control>, basePath: string, format: string, made: Outcome): (map<string, Control>, Result<Control>) {
    if basePath in controls && Name(controls[basePath]) == format then (controls, Ok(controls[basePath]))
    else
      match Registered(format)
      case Some(c) =>
        var outcome := if c.Bare? then BareQuota.NewBareQuotaControl(basePath) else made;
        if outcome.Fail? then (controls, Err(outcome.error))
        else (controls[basePath := c], Ok(c))
      case None => (controls[basePath := Bare], Ok(Bare))
  }

  /** The package variable `quotaControls`. */
  class Registry {
    var controls: map<string, Control>

    /** `init`: an empty cache. */
    constructor ()
      ensures controls == map[]
    {
      controls := map[];
    }

    method NewQuota(basePath: string, format: string, made: Outcome) returns (r: Result<Control>)
      modifies this
      ensures (controls, r) == Selected(old(controls), basePath, format, made)
    {
      if basePath in controls && Name(controls[basePath]) == format {
        return Ok(controls[basePath]);
      }
      var ctor := Registered(format);
      if ctor.Some? {
        var c := ctor.value;
        var outcome := if c.Bare? then BareQuota.NewBareQuotaControl(basePath) else made;
        if outcome.Fail? {
          return Err(outcome.error);
        }
        controls := controls[basePath := c];
      } else {
        controls := controls[basePath := Bare];
      }
      r := Ok(controls[basePath]);
    }
  }

  /** A cached control of the requested format is returned as it is, and nothing is built. */
  lemma SelectedCached(controls: map<string, Control>, basePath: string, format: string, made: Outcome)
    requires basePath in controls && Name(controls[basePath]) == format
    ensures Selected(controls, basePath, format, made) == (controls, Ok(controls[basePath]))
  {
  }

  /**
   * Otherwise a registered format is built and stored under the base path,
   * replacing a control of another format; a failed constructor returns its
   * error and leaves the cache as it was; an unregistered format stores and
   * returns the bare control. Either way the control returned is the one
   * cached under the base path afterwards, and no other path is touched.
   */
  lemma SelectedBuilds(controls: map<string, Control>, basePath: string, format: string, made: Outcome)
    requires !(basePath in controls && Name(controls[basePath]) == format)
    ensures var (after, r) := Selected(controls, basePath, format, made);
            && (r.Ok? ==> basePath in after && after[basePath] == r.value && after == controls[basePath := r.value])
            && (Registered(format).Some? && (format == BareQuota.QUOTA_BARE || made.Pass?) ==> r == Ok(Registered(format).value) && Name(r.value) == format)
            && (Registered(format).Some? && format != BareQuota.QUOTA_BARE && made.Fail? ==> after == controls && r == Err(made.error))
            && (Registered(format).None? ==> r == Ok(Bare))
  {
  }

  /**
   * Asking twice is asking once: after a successful `NewQuota`, the same
   * request returns the same control and leaves the cache as it is.
   */
  lemma {:induction false} SelectedTwice(controls: map<string, Control>, basePath: string, format: string, made: Outcome, again: Outcome)
    ensures var (after, r) := Selected(controls, basePath, format, made);
            r.Ok? ==> Selected(after, basePath, format, again) == (after, r)
  {
    var (after, r) := Selected(controls, basePath, format, made);
    if r.Ok? && Registered(format).None? {
      assert after[basePath] == Bare;
      assert after[basePath := Bare] == after;
    }
  }

  /** The controls of the other base paths are never touched. */
  lemma SelectedLocal(controls: map<string, Control>, basePath: string, format: string, made: Outcome, other: string)
    requires other != basePath
    ensures var after := Selected(controls, basePath, format, made).0;
            (other in after <==> other in controls) && (other in controls ==> after[other] == controls[other])
  {
  }
}
