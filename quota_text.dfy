/**
 * The text formats the two group-quota backends (stone_plugin/quota/ext4quota.go
 * and stone_plugin/tools/quota.go) read and write: size strings and KiB limits,
 * `/proc/mounts` lines and their option lists, `repquota` rows, the
 * `system.subtree` attribute and the header of a fresh quota file. Both files
 * carry identical copies of this code; it is modelled once.
 */
module QuotaText {
  import opened Wrappers
  import opened GoStrings
  import opened GoStrconv

  const KILOBYTE: nat := 1024
  const MEGABYTE: nat := 1024 * KILOBYTE
  const GIGABYTE: nat := 1024 * MEGABYTE
  const TERABYTE: nat := 1024 * GIGABYTE

  // ---------------------------------------------------------------------------
  // Sizes

  /** `formatSize`: a byte count as whole KiB, rounded down, but never below 1. */
  function FormatSize(bytes: nat): (kb: nat)
    ensures kb >= 1
    ensures bytes < KILOBYTE ==> kb == 1
    ensures bytes >= KILOBYTE ==> kb * KILOBYTE <= bytes < (kb + 1) * KILOBYTE
  {
    if bytes < KILOBYTE then 1 else bytes / KILOBYTE
  }

  /** `formatSize` never shrinks when its input grows. */
  lemma FormatSizeMonotone(a: nat, b: nat)
    requires a <= b
    ensures FormatSize(a) <= FormatSize(b)
  {
  }

  /** The number part of the size pattern: `-?\d+`. */
  predicate IsNumeral(n: string) {
    AllDigits(n) || (|n| > 0 && n[0] == '-' && AllDigits(n[1..]))
  }

  /** The Kelvin sign U+212A, which Unicode case folding puts with `k` and `K`. */
  const KELVIN: char := '\U{212A}'

  /** How `(?i)` compares a character with a letter of the pattern: ASCII case, and the Kelvin sign as `K`. */
  function FoldChar(c: char): char {
    if c == KELVIN then 'K' else UpperChar(c)
  }

  function Fold(u: string): (r: string)
    ensures |r| == |u| && forall i :: 0 <= i < |u| ==> r[i] == FoldChar(u[i])
  {
    seq(|u|, i requires 0 <= i < |u| => FoldChar(u[i]))
  }

  /** Without the Kelvin sign, folding is ASCII upper-casing. */
  lemma FoldIsUpper(u: string)
    requires KELVIN !in u
    ensures Fold(u) == ToUpper(u)
  {
  }

  /** The unit part of the size pattern: `[KMGT]B?|B`, letters in either case (and `K` also as the Kelvin sign). */
  predicate IsUnit(u: string) {
    Fold(u) in {"K", "KB", "M", "MB", "G", "GB", "T", "TB", "B"}
  }

  lemma UnitStartsWithLetter(u: string)
    requires IsUnit(u)
    ensures |u| > 0 && !IsDigit(u[0]) && u[0] != '-'
  {
    assert |Fold(u)| > 0;
    assert Fold(u)[0] == FoldChar(u[0]);
  }

  /** Number of leading decimal digits of `s`. */
  function DigitRun(s: string): (n: nat)
    ensures n <= |s|
    ensures forall j :: 0 <= j < n ==> IsDigit(s[j])
    ensures n < |s| ==> !IsDigit(s[n])
  {
    if |s| == 0 || !IsDigit(s[0]) then 0 else 1 + DigitRun(s[1..])
  }

  lemma {:induction false} DigitRunExact(t: string, n: nat)
    requires n <= |t|
    requires forall j :: 0 <= j < n ==> IsDigit(t[j])
    requires n < |t| ==> !IsDigit(t[n])
    ensures DigitRun(t) == n
  {
    if n > 0 {
      assert forall j :: 0 <= j < n - 1 ==> t[1..][j] == t[j + 1];
      DigitRunExact(t[1..], n - 1);
    }
  }

  /** Length of the optional leading minus sign. */
  function SignLen(s: string): nat {
    if |s| > 0 && s[0] == '-' then 1 else 0
  }

  /** Where the longest `-?\d*` prefix of `s` ends. */
  function NumeralEnd(s: string): (k: nat)
    ensures SignLen(s) <= k <= |s|
  {
    SignLen(s) + DigitRun(s[SignLen(s)..])
  }

  /** A numeral followed by a unit can only be cut where the digits stop. */
  lemma NumeralCutIsEnd(s: string, i: nat)
    requires i <= |s| && IsNumeral(s[..i]) && IsUnit(s[i..])
    ensures i == NumeralEnd(s) && i > SignLen(s)
  {
    UnitStartsWithLetter(s[i..]);
    assert s[i..][0] == s[i];
    var sg := SignLen(s);
    var t := s[sg..];
    assert i > 0;
    assert s[..i][0] == s[0];
    if sg == 1 {
      assert !AllDigits(s[..i]);
      forall j | 0 <= j < i - 1
        ensures IsDigit(t[j])
      {
        assert s[..i][1..][j] == t[j];
      }
      assert |s[..i][1..]| > 0;
    } else {
      forall j | 0 <= j < i
        ensures IsDigit(t[j])
      {
        assert s[..i][j] == t[j];
      }
    }
    assert t[i - sg] == s[i];
    DigitRunExact(t, i - sg);
  }

  /** The longest prefix is a numeral once it holds a digit. */
  lemma NumeralUpToEnd(s: string)
    requires NumeralEnd(s) > SignLen(s)
    ensures IsNumeral(s[..NumeralEnd(s)])
  {
    var sg, k := SignLen(s), NumeralEnd(s);
    var t := s[sg..];
    if sg == 1 {
      assert forall j :: 0 <= j < k - 1 ==> s[..k][1..][j] == t[j];
    } else {
      assert forall j :: 0 <= j < k ==> s[..k][j] == t[j];
    }
  }

  /**
   * The two submatches of `(?i)^(-?\d+)([KMGT]B?|B)$` against `s`, or None
   * when it does not match: the only split of `s` into a numeral and a unit.
   */
  function MatchByteSize(s: string): (r: Option<(string, string)>)
    ensures r.Some? ==> s == r.value.0 + r.value.1 && IsNumeral(r.value.0) && IsUnit(r.value.1)
    ensures forall i :: 0 <= i <= |s| && IsNumeral(s[..i]) && IsUnit(s[i..]) ==>
              r == Some((s[..i], s[i..]))
  {
    var k := NumeralEnd(s);
    NumeralCutsAreEnd(s);
    if k > SignLen(s) && IsUnit(s[k..]) then
      NumeralSplitAtEnd(s);
      Some((s[..k], s[k..]))
    else None
  }

  /** Every cut of `s` into a numeral and a unit is at the numeral's end. */
  lemma NumeralCutsAreEnd(s: string)
    ensures forall i :: 0 <= i <= |s| && IsNumeral(s[..i]) && IsUnit(s[i..]) ==> i == NumeralEnd(s) && NumeralEnd(s) > SignLen(s)
  {
    forall i | 0 <= i <= |s| && IsNumeral(s[..i]) && IsUnit(s[i..])
      ensures i == NumeralEnd(s) && NumeralEnd(s) > SignLen(s)
    {
      NumeralCutIsEnd(s, i);
    }
  }

  /** Cutting at the numeral's end gives a numeral and the rest. */
  lemma NumeralSplitAtEnd(s: string)
    requires NumeralEnd(s) > SignLen(s)
    ensures IsNumeral(s[..NumeralEnd(s)]) && s == s[..NumeralEnd(s)] + s[NumeralEnd(s)..]
  {
    NumeralUpToEnd(s);
  }

  /**
   * Bytes per unit, by the first byte of the upper-cased unit. A unit that
   * starts with the Kelvin sign (which upper-casing keeps) starts with the
   * byte 0xE2 of its UTF-8 encoding, which no case names: it counts 0 bytes.
   */
  function UnitBytes(u: string): (b: nat)
    requires IsUnit(u)
    ensures b == 0 <==> u[0] == KELVIN
  {
    var c := ToUpper(u)[0];
    if c == 'T' then TERABYTE
    else if c == 'G' then GIGABYTE
    else if c == 'M' then MEGABYTE
    else if c == 'K' then KILOBYTE
    else if c == 'B' then 1
    else 0
  }

  /** `t` is a decimal count of bytes between 1 and 2^64-1 (no sign), cut at `i` from its unit. */
  predicate PositiveCountAt(t: string, i: nat)
    requires i <= |t|
  {
    AllDigits(t[..i]) && 0 < DecimalValue(t[..i]) <= UINT64_MAX && IsUnit(t[i..])
  }

  /** A size string that names a positive number of units. */
  ghost predicate PositiveSize(t: string) {
    exists i: nat :: i <= |t| && PositiveCountAt(t, i)
  }

  /**
   * `toByteSize`: a size string such as "10G" or "512kb" (surrounding white
   * space allowed) as whole KiB. A string outside the pattern, a negative
   * number and zero all give 0; otherwise the byte count, computed in uint64
   * arithmetic, goes through `formatSize`.
   */
  function ToByteSize(s: string): (kb: nat)
    ensures kb < TWO_64
  {
    match MatchByteSize(TrimSpace(s))
    case None => 0
    case Some(parts) =>
      var p := ParseUint64(parts.0);
      if !p.Parsed? || p.value < 1 then 0
      else FormatSize(ToUint64(p.value * UnitBytes(parts.1)))
  }

  /** `toByteSize` gives 0 exactly for strings that do not name a positive count of units. */
  lemma ToByteSizeZeroIff(s: string)
    ensures ToByteSize(s) == 0 <==> !PositiveSize(TrimSpace(s))
  {
    var t := TrimSpace(s);
    if PositiveSize(t) {
      var i: nat :| i <= |t| && PositiveCountAt(t, i);
      assert IsNumeral(t[..i]);
      assert MatchByteSize(t) == Some((t[..i], t[i..]));
    }
    if ToByteSize(s) != 0 {
      var parts := MatchByteSize(t).value;
      var i := |parts.0|;
      assert t[..i] == parts.0 && t[i..] == parts.1;
      assert PositiveCountAt(t, i);
    }
  }

  /** A positive count of units converts to `formatSize` of the byte count taken modulo 2^64. */
  lemma ToByteSizeScales(s: string, i: nat)
    requires i <= |TrimSpace(s)| && PositiveCountAt(TrimSpace(s), i)
    ensures ToByteSize(s) ==
              FormatSize(ToUint64(DecimalValue(TrimSpace(s)[..i]) * UnitBytes(TrimSpace(s)[i..])))
  {
    var t := TrimSpace(s);
    assert IsNumeral(t[..i]);
    assert MatchByteSize(t) == Some((t[..i], t[i..]));
  }

  lemma TrimSpaceKeepsTrimmed(s: string)
    requires |s| > 0 && !IsSpace(s[0]) && !IsSpace(s[|s| - 1])
    ensures TrimSpace(s) == s
  {
    assert LeadingIn(s, SpaceChars) == 0;
    assert s[0..] == s;
    assert TrailingIn(s, SpaceChars) == 0;
  }

  /** "<n><unit>" is already trimmed, and cuts after the numeral into the count and the unit. */
  lemma NumeralUnitCut(n: nat, unit: string)
    requires IsUnit(unit) && !IsSpace(unit[|unit| - 1])
    ensures var s := FormatNat(n) + unit;
            TrimSpace(s) == s && s[..|FormatNat(n)|] == FormatNat(n) && s[|FormatNat(n)|..] == unit
  {
    var s := FormatNat(n) + unit;
    assert s[0] == FormatNat(n)[0];
    TrimSpaceKeepsTrimmed(s);
    assert s[..|FormatNat(n)|] == FormatNat(n);
  }

  /**
   * A byte count written as "<n>B" (what volume creation passes) converts to
   * the same KiB limit as `formatSize(n)`; the two backends agree.
   */
  lemma ByteSuffixMatchesFormatSize(n: nat)
    requires 0 < n < TWO_64
    ensures ToByteSize(FormatNat(n) + "B") == FormatSize(n)
  {
    var s := FormatNat(n) + "B";
    var k := |FormatNat(n)|;
    assert ToUpper("B") == "B";
    FoldIsUpper("B");
    NumeralUnitCut(n, "B");
    assert UnitBytes("B") == 1;
    assert PositiveCountAt(TrimSpace(s), k);
    ToByteSizeScales(s, k);
  }

  /** A character that upper-cases to a Latin capital is a letter, not white space. */
  lemma LetterNotSpace(c: char)
    requires 'A' <= UpperChar(c) <= 'Z'
    ensures !IsSpace(c)
  {
  }

  /** "<n>K", "<n>kb", ... : a whole number of KiB converts back to itself while it fits in uint64. */
  lemma KiloSuffixRoundTrip(n: nat, unit: string)
    requires 0 < n && n * KILOBYTE < TWO_64
    requires ToUpper(unit) == "K" || ToUpper(unit) == "KB"
    ensures ToByteSize(FormatNat(n) + unit) == n
  {
    var s := FormatNat(n) + unit;
    var k := |FormatNat(n)|;
    assert IsUnit(unit) && UnitBytes(unit) == KILOBYTE by {
      assert KELVIN !in unit by {
        forall i | 0 <= i < |unit| ensures unit[i] != KELVIN {
          assert ToUpper(unit)[i] == UpperChar(unit[i]);
        }
      }
      FoldIsUpper(unit);
      assert ToUpper(unit)[0] == 'K';
    }
    assert !IsSpace(unit[|unit| - 1]) by {
      var c := unit[|unit| - 1];
      assert UpperChar(c) == ToUpper(unit)[|unit| - 1];
      assert UpperChar(c) == 'K' || UpperChar(c) == 'B';
      LetterNotSpace(c);
    }
    assert TrimSpace(s) == s && s[..k] == FormatNat(n) && s[k..] == unit by {
      NumeralUnitCut(n, unit);
    }
    assert PositiveCountAt(TrimSpace(s), k);
    ToByteSizeScales(s, k);
    assert FormatSize(n * KILOBYTE) == n;
  }

  /**
   * `(?i)` lets the Kelvin sign stand for `K`: a count written with it (alone
   * or before `B`) matches the pattern, but counts 0 bytes, so it converts
   * to a limit of 1 KiB whatever the count.
   */
  lemma KelvinUnitGivesOne(n: nat, unit: string)
    requires 0 < n < TWO_64
    requires unit == [KELVIN] || unit == [KELVIN, 'B'] || unit == [KELVIN, 'b']
    ensures ToByteSize(FormatNat(n) + unit) == 1
  {
    var s := FormatNat(n) + unit;
    var k := |FormatNat(n)|;
    assert Fold(unit) == "K" || Fold(unit) == "KB";
    NumeralUnitCut(n, unit);
    assert UnitBytes(unit) == 0;
    assert PositiveCountAt(TrimSpace(s), k);
    ToByteSizeScales(s, k);
  }

  /** Zero and negative counts give 0, which `setquota` reads as "no limit". */
  lemma NonPositiveByteCountIsZero(v: int)
    requires v <= 0
    ensures ToByteSize(FormatInt(v) + "B") == 0
  {
    var s := FormatInt(v) + "B";
    TrimSpaceKeepsTrimmed(s);
    var k := |FormatInt(v)|;
    assert s[..k] == FormatInt(v) && s[k..] == "B";
    assert ToUpper("B") == "B";
    FoldIsUpper("B");
    if v == 0 {
      assert FormatInt(v) == "0";
      assert IsNumeral(FormatInt(v));
      assert MatchByteSize(s) == Some((FormatInt(v), "B"));
      assert DecimalValue("0") == 0;
    } else {
      assert FormatInt(v) == "-" + FormatNat(-v);
      assert FormatInt(v)[1..] == FormatNat(-v);
      assert MatchByteSize(s) == Some((FormatInt(v), "B"));
      assert !AllDigits(FormatInt(v)) by { assert !IsDigit(FormatInt(v)[0]); }
    }
  }

  // ---------------------------------------------------------------------------
  // /proc/mounts

  /** A failed `getDevId` yields device 0, which the mount scan then compares like any other id. */
  function DevOf(devOf: map<string, nat>, path: string): nat {
    if path in devOf then devOf[path] else 0
  }

  /** The blank-separated fields of a mount line when there are exactly six, the device matching `devId`. */
  predicate MountLineFor(line: string, devOf: map<string, nat>, devId: nat) {
    var parts := Split(line, ' ');
    |parts| == 6 && DevOf(devOf, parts[1]) == devId
  }

  /** Index of the first line describing device `devId`, or -1. */
  function FirstMountLine(lines: seq<string>, devOf: map<string, nat>, devId: nat): (k: int)
    ensures -1 <= k < |lines|
    ensures k >= 0 ==> MountLineFor(lines[k], devOf, devId)
    ensures forall j :: 0 <= j < |lines| && (k == -1 || j < k) ==> !MountLineFor(lines[j], devOf, devId)
  {
    if |lines| == 0 then -1
    else if MountLineFor(lines[0], devOf, devId) then 0
    else
      var k := FirstMountLine(lines[1..], devOf, devId);
      assert forall j :: 1 <= j < |lines| ==> lines[1..][j - 1] == lines[j];
      if k == -1 then -1 else k + 1
  }

  /** The fields of the first line for `devId` in a readable mount table. */
  function MountEntry(mounts: Result<string>, devOf: map<string, nat>, devId: nat): (r: Option<seq<string>>)
    ensures r.Some? ==> |r.value| == 6 && DevOf(devOf, r.value[1]) == devId
  {
    if mounts.Err? then None
    else
      var lines := Split(mounts.value, '\n');
      var k := FirstMountLine(lines, devOf, devId);
      if k < 0 then None else Some(Split(lines[k], ' '))
  }

  /** Whether `name` is one of the mount options `opts`. */
  method HasOption(opts: seq<string>, name: string) returns (found: bool)
    ensures found <==> name in opts
  {
    found := false;
    var o := 0;
    while o < |opts|
      invariant 0 <= o <= |opts|
      invariant found <==> name in opts[..o]
    {
      assert opts[..o + 1] == opts[..o] + [opts[o]];
      if opts[o] == name {
        found := true;
      }
      o := o + 1;
    }
    assert opts[..o] == opts;
  }

  /**
   * The mount point, whether `grpquota` is among the options, and the
   * file-system type of the first line of the table for `devId`; all empty
   * when the table cannot be read or has no such line.
   */
  function MountCheck(mounts: Result<string>, devOf: map<string, nat>, devId: nat): (r: (string, bool, string))
    ensures MountEntry(mounts, devOf, devId).None? ==> r == ("", false, "")
    ensures MountEntry(mounts, devOf, devId).Some? ==>
              var parts := MountEntry(mounts, devOf, devId).value;
              && |parts| == 6
              && r.0 == parts[1]
              && r.2 == parts[2]
              && (r.1 <==> "grpquota" in Split(parts[3], ','))
  {
    match MountEntry(mounts, devOf, devId)
    case None => ("", false, "")
    case Some(parts) => (parts[1], "grpquota" in Split(parts[3], ','), parts[2])
  }

  /** `checkMountpoint`: the scan of the mount table for the first line of device `devId`. */
  method CheckMountpoint(mounts: Result<string>, devOf: map<string, nat>, devId: nat)
    returns (mountPoint: string, hasQuota: bool, fsType: string)
    ensures (mountPoint, hasQuota, fsType) == MountCheck(mounts, devOf, devId)
  {
    mountPoint, hasQuota, fsType := "", false, "";
    if mounts.Err? {
      return;
    }
    var lines := Split(mounts.value, '\n');
    var i := 0;
    while i < |lines|
      invariant 0 <= i <= |lines|
      invariant forall j :: 0 <= j < i ==> !MountLineFor(lines[j], devOf, devId)
    {
      var parts := Split(lines[i], ' ');
      if |parts| != 6 {
        i := i + 1;
        continue;
      }
      var devId2 := DevOf(devOf, parts[1]);
      if devId == devId2 {
        mountPoint := parts[1];
        fsType := parts[2];
        hasQuota := HasOption(Split(parts[3], ','), "grpquota");
        assert FirstMountLine(lines, devOf, devId) == i;
        return;
      }
      i := i + 1;
    }
  }

  /** `key=value` when the option has an `=`, split at the first one. */
  predicate IsSetting(opt: string, key: string) {
    var items := SplitN2(opt, '=');
    |items| == 2 && items[0] == key
  }

  /** The value of the last `key=...` option, or `dflt` when there is none. */
  function LastSetting(opts: seq<string>, key: string, dflt: string): string {
    if |opts| == 0 then dflt
    else if IsSetting(opts[|opts| - 1], key) then SplitN2(opts[|opts| - 1], '=')[1]
    else LastSetting(opts[..|opts| - 1], key, dflt)
  }

  /** With no option setting `key`, the default stands. */
  lemma {:induction false} LastSettingDefault(opts: seq<string>, key: string, dflt: string)
    requires forall j :: 0 <= j < |opts| ==> !IsSetting(opts[j], key)
    ensures LastSetting(opts, key, dflt) == dflt
  {
    if |opts| > 0 {
      var front := opts[..|opts| - 1];
      assert forall j :: 0 <= j < |front| ==> front[j] == opts[j];
      LastSettingDefault(front, key, dflt);
    }
  }

  /** Later options override earlier ones: the value is that of the last option setting `key`. */
  lemma {:induction false} LastSettingWins(opts: seq<string>, k: nat, key: string, dflt: string)
    requires k < |opts| && IsSetting(opts[k], key)
    requires forall j :: k < j < |opts| ==> !IsSetting(opts[j], key)
    ensures LastSetting(opts, key, dflt) == SplitN2(opts[k], '=')[1]
  {
    if k < |opts| - 1 {
      var front := opts[..|opts| - 1];
      assert !IsSetting(opts[|opts| - 1], key);
      assert front[k] == opts[k];
      assert forall j :: k < j < |front| ==> front[j] == opts[j];
      LastSettingWins(front, k, key, dflt);
    }
  }

  /** One more option: it overrides what came before exactly when it sets `key`. */
  lemma LastSettingSnoc(opts: seq<string>, o: nat, key: string, dflt: string)
    requires o < |opts|
    ensures LastSetting(opts[..o + 1], key, dflt) ==
              if IsSetting(opts[o], key) then SplitN2(opts[o], '=')[1] else LastSetting(opts[..o], key, dflt)
  {
    assert opts[..o + 1][..o] == opts[..o];
  }

  const DEFAULT_VFS_VERSION: string := "vfsv0"
  const DEFAULT_QUOTA_FILE: string := "aquota.group"

  /** The `jqfmt=` and `grpjquota=` settings among mount options, later ones overriding earlier ones. */
  method QuotaSettings(opts: seq<string>) returns (vfsVersion: string, quotaFilename: string)
    ensures vfsVersion == LastSetting(opts, "jqfmt", DEFAULT_VFS_VERSION)
    ensures quotaFilename == LastSetting(opts, "grpjquota", DEFAULT_QUOTA_FILE)
  {
    vfsVersion, quotaFilename := DEFAULT_VFS_VERSION, DEFAULT_QUOTA_FILE;
    var o := 0;
    while o < |opts|
      invariant 0 <= o <= |opts|
      invariant vfsVersion == LastSetting(opts[..o], "jqfmt", DEFAULT_VFS_VERSION)
      invariant quotaFilename == LastSetting(opts[..o], "grpjquota", DEFAULT_QUOTA_FILE)
    {
      LastSettingSnoc(opts, o, "jqfmt", DEFAULT_VFS_VERSION);
      LastSettingSnoc(opts, o, "grpjquota", DEFAULT_QUOTA_FILE);
      var items := SplitN2(opts[o], '=');
      if |items| == 2 {
        if items[0] == "jqfmt" {
          vfsVersion := items[1];
        } else if items[0] == "grpjquota" {
          quotaFilename := items[1];
        }
      }
      o := o + 1;
    }
    assert opts[..o] == opts;
  }

  /**
   * The quota format (`jqfmt=`, default vfsv0) and quota file name
   * (`grpjquota=`, default aquota.group) of the first line for `devId`, or
   * the read error of the table.
   */
  function QuotaSettingsOf(mounts: Result<string>, devOf: map<string, nat>, devId: nat): (r: Result<(string, string)>)
    ensures r.Err? <==> mounts.Err?
    ensures mounts.Err? ==> r == Err(mounts.error)
    ensures MountEntry(mounts, devOf, devId).None? && mounts.Ok? ==> r == Ok((DEFAULT_VFS_VERSION, DEFAULT_QUOTA_FILE))
  {
    if mounts.Err? then Err(mounts.error)
    else match MountEntry(mounts, devOf, devId)
      case None => Ok((DEFAULT_VFS_VERSION, DEFAULT_QUOTA_FILE))
      case Some(parts) =>
        var opts := Split(parts[3], ',');
        Ok((LastSetting(opts, "jqfmt", DEFAULT_VFS_VERSION), LastSetting(opts, "grpjquota", DEFAULT_QUOTA_FILE)))
  }

  /**
   * `getVFSVersionAndQuotaFile`: the quota format (`jqfmt=`, default vfsv0)
   * and quota file name (`grpjquota=`, default aquota.group) among the options
   * of the first line for `devId`; the last occurrence of an option wins.
   */
  method GetVFSVersionAndQuotaFile(mounts: Result<string>, devOf: map<string, nat>, devId: nat)
    returns (vfsVersion: string, quotaFilename: string, err: Outcome)
    ensures mounts.Err? ==> vfsVersion == "" && quotaFilename == "" && err == Fail(mounts.error)
    ensures mounts.Ok? ==> err.Pass? && QuotaSettingsOf(mounts, devOf, devId) == Ok((vfsVersion, quotaFilename))
  {
    if mounts.Err? {
      return "", "", Fail(mounts.error);
    }
    vfsVersion, quotaFilename, err := DEFAULT_VFS_VERSION, DEFAULT_QUOTA_FILE, Pass;
    var lines := Split(mounts.value, '\n');
    var i := 0;
    while i < |lines|
      invariant 0 <= i <= |lines|
      invariant forall j :: 0 <= j < i ==> !MountLineFor(lines[j], devOf, devId)
    {
      var parts := Split(lines[i], ' ');
      if |parts| != 6 {
        i := i + 1;
        continue;
      }
      var devId2 := DevOf(devOf, parts[1]);
      if devId == devId2 {
        vfsVersion, quotaFilename := QuotaSettings(Split(parts[3], ','));
        assert FirstMountLine(lines, devOf, devId) == i;
        return;
      }
      i := i + 1;
    }
  }

  // ---------------------------------------------------------------------------
  // The quota file header

  /** The 32 bytes written to a missing quota file: magic d9c01927, version 0, grace times, and so on. */
  const QUOTA_HEADER: seq<bv8> := [
    0x27, 0x19, 0xc0, 0xd9, 0x00, 0x00, 0x00, 0x00,
    0x80, 0x3a, 0x09, 0x00, 0x80, 0x3a, 0x09, 0x00,
    0x00, 0x00, 0x00, 0x00, 0x06, 0x00, 0x00, 0x00,
    0x00, 0x00, 0x00, 0x00, 0x05, 0x00, 0x00, 0x00]

  /** The header for format `vfsVersion`: byte 4 (the format version) is 1 exactly for vfsv1. */
  function QuotaFileHeader(vfsVersion: string): (h: seq<bv8>)
    ensures |h| == 32
    ensures h[4] == (if vfsVersion == "vfsv1" then 1 else 0)
    ensures forall i :: 0 <= i < 32 && i != 4 ==> h[i] == QUOTA_HEADER[i]
  {
    if vfsVersion == "vfsv1" then QUOTA_HEADER[4 := 0x01] else QUOTA_HEADER
  }

  // ---------------------------------------------------------------------------
  // repquota, getfattr

  /**
   * The group id of a `repquota -gan` row: the line starts with '#', and the
   * text up to the first blank after it is a decimal (`strconv.Atoi`),
   * truncated to uint32. Other lines give None.
   */
  function RepquotaId(line: string): (r: Option<nat>)
    ensures r.Some? ==> r.value < TWO_32
    ensures r.Some? <==> |line| > 0 && line[0] == '#' && Atoi(Split(line, ' ')[0][1..]).Parsed?
  {
    if |line| == 0 || line[0] != '#' then None
    else
      var parts := Split(line, ' ');
      SplitFirst(line, ' ');
      var n := Atoi(parts[0][1..]);
      if n.Parsed? then Some(ToUint32(n.value)) else None
  }

  /**
   * `getUserQuota`'s row parse: the fifth white-space field of the trimmed
   * `repquota` output as an unsigned 64-bit decimal (the hard block limit).
   */
  function UserQuotaLimit(out: string, quotaId: nat, mountPoint: string): (r: Result<nat>)
    ensures r.Ok? <==> |Fields(TrimSpace(out))| >= 5 && ParseUint64(Fields(TrimSpace(out))[4]).Parsed?
    ensures r.Ok? ==> r.value == DecimalValue(Fields(TrimSpace(out))[4]) && r.value < TWO_64
    ensures |Fields(TrimSpace(out))| < 5 ==>
              r == Err("error result when getUserQuota with quoataId: " + FormatNat(quotaId) + ", mountPoint: " + mountPoint)
  {
    var items := Fields(TrimSpace(out));
    if |items| < 5 then
      Result<nat>.Err("error result when getUserQuota with quoataId: " + FormatNat(quotaId) + ", mountPoint: " + mountPoint)
    else
      var p := ParseUint64(items[4]);
      if p.Parsed? then Ok(p.value)
      else Result<nat>.Err("error parseUint when getUserQuota with quoataId: " + FormatNat(quotaId) + ", mountPoint: " + mountPoint)
  }

  /** Reading back a row whose fifth field is a limit written in decimal gives that limit. */
  lemma UserQuotaOfRow(front: seq<string>, limit: nat, rest: seq<string>, quotaId: nat, mountPoint: string)
    requires |front| == 4
    requires forall i :: 0 <= i < |front| ==> |front[i]| > 0 && NoSpace(front[i])
    requires forall i :: 0 <= i < |rest| ==> |rest[i]| > 0 && NoSpace(rest[i])
    requires limit < TWO_64
    ensures UserQuotaLimit(Unwords(front + [FormatNat(limit)] + rest), quotaId, mountPoint) == Ok(limit)
  {
    var ws := front + [FormatNat(limit)] + rest;
    LimitRowWords(front, limit, rest);
    var line := Unwords(ws);
    UnwordsEnds(ws);
    TrimSpaceKeepsTrimmed(line);
    FieldsOfUnwords(ws);
    assert Fields(TrimSpace(line))[4] == FormatNat(limit);
  }

  lemma LimitRowWords(front: seq<string>, limit: nat, rest: seq<string>)
    requires forall i :: 0 <= i < |front| ==> |front[i]| > 0 && NoSpace(front[i])
    requires forall i :: 0 <= i < |rest| ==> |rest[i]| > 0 && NoSpace(rest[i])
    ensures var ws := front + [FormatNat(limit)] + rest;
            forall i :: 0 <= i < |ws| ==> |ws[i]| > 0 && NoSpace(ws[i])
  {
    var ws := front + [FormatNat(limit)] + rest;
    forall i | 0 <= i < |ws| ensures |ws[i]| > 0 && NoSpace(ws[i]) {
      if i == |front| {
        assert ws[i] == FormatNat(limit);
        assert forall j :: 0 <= j < |ws[i]| ==> IsDigit(ws[i][j]);
      } else if i < |front| {
        assert ws[i] == front[i];
      } else {
        assert ws[i] == rest[i - |front| - 1];
      }
    }
  }

  /** The words `repquota -v` opens its report with, before the device name. */
  const REPORT_HEADER: seq<string> := ["***", "Report", "for", "group", "quotas", "on", "device"]

  /**
   * `getUserQuota` as written hands the whole `repquota` report to the row
   * parse (the `|`, `grep` and id it passes are further arguments of
   * `repquota`, not a pipeline). A report that opens with its header has
   * "quotas" as its fifth field, so the read fails with the parse error
   * whatever limit the id's row holds.
   */
  lemma ReportHeaderIsNotALimit(device: string, body: string, quotaId: nat, mountPoint: string)
    requires |device| > 0 && NoSpace(device)
    requires body == [] || IsSpace(body[0])
    ensures UserQuotaLimit(Unwords(REPORT_HEADER + [device]) + body, quotaId, mountPoint)
            == Err("error parseUint when getUserQuota with quoataId: " + FormatNat(quotaId) + ", mountPoint: " + mountPoint)
  {
    var ws := REPORT_HEADER + [device];
    forall i | 0 <= i < |ws| ensures |ws[i]| > 0 && NoSpace(ws[i]) {
      if i == |REPORT_HEADER| {
        assert ws[i] == device;
      } else {
        assert Graphic(ws[i]);
        GraphicNoSpace(ws[i]);
      }
    }
    assert !IsDigit(ws[4][0]);
    FifthWordNotANumber(ws, body, quotaId, mountPoint);
  }

  lemma FifthWordNotANumber(ws: seq<string>, body: string, quotaId: nat, mountPoint: string)
    requires |ws| >= 5
    requires forall i :: 0 <= i < |ws| ==> |ws[i]| > 0 && NoSpace(ws[i])
    requires !AllDigits(ws[4])
    requires body == [] || IsSpace(body[0])
    ensures UserQuotaLimit(Unwords(ws) + body, quotaId, mountPoint)
            == Err("error parseUint when getUserQuota with quoataId: " + FormatNat(quotaId) + ", mountPoint: " + mountPoint)
  {
    var out := Unwords(ws) + body;
    assert Fields(TrimSpace(out)) == ws + Fields(body) by {
      FieldsOfTrimSpace(out);
      FieldsOfUnwordsThen(ws, body);
    }
    assert (ws + Fields(body))[4] == ws[4];
  }

  /** `grep <pattern>`: the lines that contain `pattern`, in their order. */
  function MatchingLines(lines: seq<string>, pattern: string): (r: seq<string>)
    ensures forall i :: 0 <= i < |r| ==> Contains(r[i], pattern)
    ensures forall l :: l in r <==> l in lines && Contains(l, pattern)
    ensures |r| <= |lines|
  {
    if lines == [] then []
    else (if Contains(lines[0], pattern) then [lines[0]] else []) + MatchingLines(lines[1..], pattern)
  }

  /** Lines each closed by a newline, as a command prints them. */
  function Terminated(lines: seq<string>): (r: string)
    ensures lines == [] <==> r == []
  {
    if lines == [] then "" else lines[0] + "\n" + Terminated(lines[1..])
  }

  /** `repquota -gv <mp> | grep <uid>` through a shell: only the report lines that carry the id. */
  function GrepOutput(report: string, pattern: string): string {
    Terminated(MatchingLines(Split(report, '\n'), pattern))
  }

  /**
   * With the report filtered through `grep` as intended, a report whose only
   * line carrying the id is that id's row reads back the row's limit.
   */
  lemma UserQuotaOfGrepRow(report: string, front: seq<string>, limit: nat, rest: seq<string>, quotaId: nat, mountPoint: string)
    requires |front| == 4
    requires forall i :: 0 <= i < |front| ==> |front[i]| > 0 && NoSpace(front[i])
    requires forall i :: 0 <= i < |rest| ==> |rest[i]| > 0 && NoSpace(rest[i])
    requires limit < TWO_64
    requires MatchingLines(Split(report, '\n'), FormatNat(quotaId)) == [Unwords(front + [FormatNat(limit)] + rest)]
    ensures UserQuotaLimit(GrepOutput(report, FormatNat(quotaId)), quotaId, mountPoint) == Ok(limit)
  {
    var ws := front + [FormatNat(limit)] + rest;
    var row := Unwords(ws);
    LimitRowWords(front, limit, rest);
    UnwordsEnds(ws);
    assert GrepOutput(report, FormatNat(quotaId)) == row + ['\n'];
    TrimTrailing(row, '\n', SpaceChars);
    TrimSpaceKeepsTrimmed(row);
    UserQuotaOfRow(front, limit, rest, quotaId, mountPoint);
  }

  /** A line of blank-separated words neither starts nor ends with white space. */
  lemma {:induction false} UnwordsEnds(ws: seq<string>)
    requires |ws| > 0
    requires forall i :: 0 <= i < |ws| ==> |ws[i]| > 0 && NoSpace(ws[i])
    ensures |Unwords(ws)| > 0
    ensures Unwords(ws)[0] == ws[0][0]
    ensures Unwords(ws)[|Unwords(ws)| - 1] == ws[|ws| - 1][|ws[|ws| - 1]| - 1]
  {
    if |ws| > 1 {
      UnwordsEnds(ws[1..]);
      assert Unwords(ws) == ws[0] + " " + Unwords(ws[1..]);
    }
  }

  /**
   * `getFileAttr`: the `system.subtree` attribute as uint32; a failed command
   * or a non-number reads as 0, and a number outside int64 reads as the
   * clamped bound cut to 32 bits: 2^32 - 1 above, 0 below.
   */
  function FileAttrId(out: Result<string>): (id: nat)
    ensures id < TWO_32
    ensures out.Err? ==> id == 0
    ensures out.Ok? && Atoi(out.value).SyntaxError? ==> id == 0
    ensures out.Ok? && Atoi(out.value).Parsed? ==> id == ToUint32(Atoi(out.value).value)
    ensures out.Ok? && Atoi(out.value).RangeError? ==> id == ToUint32(Atoi(out.value).clamped)
    ensures out.Ok? && Atoi(out.value).RangeError? ==> id == (if SignedValue(out.value) > 0 then TWO_32 - 1 else 0)
  {
    if out.Err? then 0 else ToUint32(Atoi(out.value).Value())
  }

  /** An attribute written as the decimal of an id below 2^32 reads back as that id. */
  lemma FileAttrRoundTrip(id: nat)
    requires id < TWO_32
    ensures FileAttrId(Ok(FormatNat(id))) == id
  {
    ParseFormatInt(id);
  }
}
