/**
 * Option parsing of a create request (`validateOpts`, `setOpts` in
 * stone_plugin/plugin_unix.go): a string map becomes a typed placement request.
 */
module Options {
  import opened Wrappers
  import opened GoStrconv

  /** The option keys a create request may carry. */
  const ValidOpts: set<string> := {"diskId", "fsType", "mediaType", "size", "ioClass", "exclusive"}

  /** The typed request (`OptsConfig`); `size` is in bytes. */
  datatype OptsConfig = OptsConfig(
    diskId: string,
    fsType: string,
    mediaType: string,
    size: int,
    ioClass: int,
    exclusive: bool)

  /** Go's read of a missing map key yields the zero value "". */
  function Lookup(opts: map<string, string>, key: string): (v: string)
    ensures key in opts ==> v == opts[key]
    ensures key !in opts ==> v == ""
  {
    if key in opts then opts[key] else ""
  }

  function InvalidKeyMessage(key: string): string {
    "optKey " + key + " is invalid opt"
  }

  /**
   * `validateOpts`: walks the keys in an unspecified order (Go map order) and
   * rejects the first key outside `ValidOpts`; an empty map passes.
   */
  method ValidateOpts(opts: map<string, string>) returns (r: Outcome)
    ensures r.Pass? <==> opts.Keys <= ValidOpts
    ensures r.Fail? ==> exists k :: k in opts && k !in ValidOpts && r.error == InvalidKeyMessage(k)
  {
    var todo := opts.Keys;
    while todo != {}
      invariant todo <= opts.Keys
      invariant opts.Keys - todo <= ValidOpts
      decreases todo
    {
      var k :| k in todo;
      if k !in ValidOpts {
        return Fail(InvalidKeyMessage(k));
      }
      todo := todo - {k};
    }
    return Pass;
  }

  /** How the `exclusive` option reads: absent is false, present but empty is true, otherwise `ParseBool` or false. */
  function ExclusiveOpt(opts: map<string, string>): (b: bool)
    ensures "exclusive" !in opts ==> !b
    ensures "exclusive" in opts && opts["exclusive"] == "" ==> b
    ensures "exclusive" in opts && opts["exclusive"] != "" ==>
              (b <==> ParseBool(opts["exclusive"]) == Ok(true))
  {
    var v := Lookup(opts, "exclusive");
    var present := "exclusive" in opts;
    if v != "" then (match ParseBool(v) case Ok(x) => x case Err(_) => false) else present
  }

  /** `setOpts` accepts `opts`: known keys only, and `size` and `ioClass`, when given, are 64-bit decimals. */
  predicate Accepted(opts: map<string, string>) {
    && opts.Keys <= ValidOpts
    && ("size" in opts ==> ParseInt64(opts["size"]).Parsed?)
    && ("ioClass" in opts ==> ParseInt64(opts["ioClass"]).Parsed?)
  }

  /** The request `setOpts` builds from accepted options. */
  function Parsed(opts: map<string, string>): OptsConfig
    requires Accepted(opts)
  {
    OptsConfig(Lookup(opts, "diskId"), Lookup(opts, "fsType"), Lookup(opts, "mediaType"),
               if "size" in opts then ParseInt64(opts["size"]).value else 10,
               if "ioClass" in opts then ParseInt64(opts["ioClass"]).value else 0,
               ExclusiveOpt(opts))
  }

  /**
   * `error` is what `setOpts` may answer for `opts`: an unknown key (whichever
   * the map walk meets first), else a malformed size, else a malformed io class.
   */
  ghost predicate Rejects(opts: map<string, string>, error: string) {
    if !(opts.Keys <= ValidOpts) then exists k :: k in opts && k !in ValidOpts && error == InvalidKeyMessage(k)
    else if "size" in opts && !ParseInt64(opts["size"]).Parsed? then error == "unknown format of size " + opts["size"]
    else "ioClass" in opts && !ParseInt64(opts["ioClass"]).Parsed? && error == "unknown format of ioClass " + opts["ioClass"]
  }

  /**
   * `setOpts`: validate the keys, parse `size` (default 10) and `ioClass`
   * (default 0) as 64-bit decimals, read `exclusive`, copy the three strings.
   */
  method SetOpts(opts: map<string, string>) returns (r: Result<OptsConfig>)
    ensures !(opts.Keys <= ValidOpts) ==> r.Err?
    ensures r.Err? ==> Rejects(opts, r.error)
    ensures opts.Keys <= ValidOpts && "size" in opts && !ParseInt64(opts["size"]).Parsed? ==>
              r == Err("unknown format of size " + opts["size"])
    ensures opts.Keys <= ValidOpts && ("size" in opts ==> ParseInt64(opts["size"]).Parsed?)
              && "ioClass" in opts && !ParseInt64(opts["ioClass"]).Parsed? ==>
              r == Err("unknown format of ioClass " + opts["ioClass"])
    ensures r.Ok? <==> opts.Keys <= ValidOpts
                        && ("size" in opts ==> ParseInt64(opts["size"]).Parsed?)
                        && ("ioClass" in opts ==> ParseInt64(opts["ioClass"]).Parsed?)
    ensures r.Ok? ==> r.value == Parsed(opts)
    ensures r.Ok? ==>
              && r.value.size == (if "size" in opts then ParseInt64(opts["size"]).value else 10)
              && r.value.ioClass == (if "ioClass" in opts then ParseInt64(opts["ioClass"]).value else 0)
              && r.value.exclusive == ExclusiveOpt(opts)
              && r.value.diskId == Lookup(opts, "diskId")
              && r.value.fsType == Lookup(opts, "fsType")
              && r.value.mediaType == Lookup(opts, "mediaType")
  {
    var valid := ValidateOpts(opts);
    if valid.Fail? {
      return Err(valid.error);
    }
    var size := 10;
    if "size" in opts {
      var p := ParseInt64(opts["size"]);
      if !p.Parsed? {
        return Err("unknown format of size " + opts["size"]);
      }
      size := p.value;
    }
    var ioClass := 0;
    if "ioClass" in opts {
      var p := ParseInt64(opts["ioClass"]);
      if !p.Parsed? {
        return Err("unknown format of ioClass " + opts["ioClass"]);
      }
      ioClass := p.value;
    }
    var exclusive := ExclusiveOpt(opts);
    return Ok(OptsConfig(Lookup(opts, "diskId"), Lookup(opts, "fsType"), Lookup(opts, "mediaType"),
                         size, ioClass, exclusive));
  }

  /** An empty option map is accepted and yields the defaults: any disk, 10 bytes, io class 0, shared. */
  method DefaultsOfEmptyOpts() returns (r: Result<OptsConfig>)
    ensures r == Ok(OptsConfig("", "", "", 10, 0, false))
  {
    r := SetOpts(map[]);
  }
}
