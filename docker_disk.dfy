/**
 * The disk inventory of the `docker-disk` helper (docker-disk/disk.go):
 * the parser of the `df -T -B 1 -P` table and the rules that turn its rows
 * into the disks volumes can be placed on.
 *
 * The commands are inputs: the text `df` printed and its exit status, the
 * listing of /sys/block, the `rotational` flag of each device, the output of
 * `readlink -f` on the working directory, whether a file system is an NVMe
 * device (`stat` succeeds and its major number is 259), and MD5 as an
 * uninterpreted text-to-text function.
 */
module DockerDisk {
  import opened Wrappers
  import opened GoStrings
  import opened GoStrconv
  import opened DiskTypes

  const ERR_DF_NOT_RESULT: string := "Command df not output result"
  const ERR_DF_NOT_OK_RESULT: string := "Command df not right result"
  const RBD_PREFIX: string := "/dev/rbd"
  const NVME_PREFIX: string := "/dev/nvme"
  const NVME: string := "nvme"
  const UNKNOWN: string := "unknown"

  /** One row of the `df` table; the sizes are in bytes. */
  datatype DfInfo = DfInfo(
    Filesystem: string,
    Type: string,
    Block: int,
    Used: int,
    Available: int,
    UsedPercent: int,
    Mounted: string)

  // ---------------------------------------------------------------------------
  // ParseDf

  /** A row: exactly seven fields, of which the 3rd to 6th are 64-bit integers (the 6th after trimming `%`). */
  function DfLine(l: string): Option<DfInfo> {
    DfCells(Fields(l))
  }

  function DfCells(f: seq<string>): Option<DfInfo> {
    if |f| != 7 then None
    else
      var block := ParseInt64(f[2]);
      var used := ParseInt64(f[3]);
      var avail := ParseInt64(f[4]);
      var usedPercent := ParseInt64(Trim(f[5], {'%'}));
      if !block.Parsed? || !used.Parsed? || !avail.Parsed? || !usedPercent.Parsed? then None
      else Some(DfInfo(f[0], f[1], block.value, used.value, avail.value, usedPercent.value, f[6]))
  }

  /** The rows of `lines` that parse, in order; the others are skipped. */
  function DfRows(lines: seq<string>): seq<DfInfo> {
    if |lines| == 0 then []
    else
      var last := match DfLine(lines[|lines| - 1]) case Some(d) => [d] case None => [];
      DfRows(lines[..|lines| - 1]) + last
  }

  /** `ParseDf` on what the command printed and how it exited. */
  function ParsedDf(out: string, cmdErr: Outcome): Result<seq<DfInfo>> {
    if cmdErr.Fail? && |out| == 0 then Err(cmdErr.error)
    else
      var lines := Split(out, '\n');
      if |lines| <= 1 then Err(ERR_DF_NOT_RESULT)
      else
        var rows := DfRows(lines[1..]);
        if |rows| == 0 then Err(ERR_DF_NOT_OK_RESULT) else Ok(rows)
  }

  /** `ParseDf`: the title line is skipped, then every line of seven parsable fields becomes a row. */
  method ParseDf(out: string, cmdErr: Outcome) returns (r: Result<seq<DfInfo>>)
    ensures r == ParsedDf(out, cmdErr)
  {
    if cmdErr.Fail? && |out| == 0 {
      return Err(cmdErr.error);
    }
    var lines := Split(out, '\n');
    if |lines| == 0 || |lines| == 1 {
      return Err(ERR_DF_NOT_RESULT);
    }
    var infos: seq<DfInfo> := [];
    for n := 1 to |lines|
      invariant infos == DfRows(lines[1..n])
    {
      assert lines[1..n + 1][..n - 1] == lines[1..n];
      var fields := Fields(lines[n]);
      if |fields| != 7 {
        continue;
      }
      var block := ParseInt64(fields[2]);
      if !block.Parsed? {
        continue;
      }
      var used := ParseInt64(fields[3]);
      if !used.Parsed? {
        continue;
      }
      var avail := ParseInt64(fields[4]);
      if !avail.Parsed? {
        continue;
      }
      var usedPercent := ParseInt64(Trim(fields[5], {'%'}));
      if !usedPercent.Parsed? {
        continue;
      }
      infos := infos + [DfInfo(fields[0], fields[1], block.value, used.value, avail.value, usedPercent.value, fields[6])];
    }
    assert lines[1..] == lines[1..|lines|];
    if |infos| == 0 {
      return Err(ERR_DF_NOT_OK_RESULT);
    }
    return Ok(infos);
  }

  /**
   * The outcomes of `ParseDf`: a failed command with no output is its own
   * error; output without a second line is "not output result"; a table
   * without a single good row is "not right result"; a success has rows.
   */
  lemma ParsedDfOutcomes(out: string, cmdErr: Outcome)
    ensures var r := ParsedDf(out, cmdErr);
            && (cmdErr.Fail? && out == "" ==> r == Err(cmdErr.error))
            && (!(cmdErr.Fail? && out == "") && '\n' !in out ==> r == Err(ERR_DF_NOT_RESULT))
            && (r.Ok? ==> |r.value| > 0 && r.value == DfRows(Split(out, '\n')[1..]))
  {
    if !(cmdErr.Fail? && out == "") && '\n' !in out {
      assert IndexOf(out, '\n') == -1;
    }
  }

  /** Rows keep the order of their lines: the rows of two runs of lines are the rows of each, one after the other. */
  lemma {:induction false} DfRowsAppend(a: seq<string>, b: seq<string>)
    ensures DfRows(a + b) == DfRows(a) + DfRows(b)
    decreases |b|
  {
    if |b| == 0 {
      assert a + b == a;
    } else {
      var c := b[..|b| - 1];
      assert (a + b)[..|a + b| - 1] == a + c;
      assert (a + b)[|a + b| - 1] == b[|b| - 1];
      DfRowsAppend(a, c);
    }
  }

  /** A line that does not parse, wherever it stands, contributes nothing and disturbs nothing. */
  lemma DfRowsSkipsBadLine(a: seq<string>, l: string, b: seq<string>)
    requires DfLine(l).None?
    ensures DfRows(a + [l] + b) == DfRows(a + b)
  {
    DfRowsAppend(a + [l], b);
    DfRowsAppend(a, [l]);
    DfRowsAppend(a, b);
    assert DfRows([l]) == DfRows([]) + [];
  }

  /** Every row holds the words of its line: the text fields are non-empty and hold no white space. */
  predicate Word(w: string) {
    |w| > 0 && NoSpace(w)
  }

  predicate WordsOf(d: DfInfo) {
    Word(d.Filesystem) && Word(d.Type) && Word(d.Mounted)
  }

  lemma {:induction false} DfRowsAreWords(lines: seq<string>)
    ensures forall i :: 0 <= i < |DfRows(lines)| ==> WordsOf(DfRows(lines)[i])
  {
    if |lines| > 0 {
      DfRowsAreWords(lines[..|lines| - 1]);
    }
  }

  // ---------------------------------------------------------------------------
  // The table df prints, for the round trip

  /** A row `df` can print: single-word texts and 64-bit numbers. */
  predicate Printable(d: DfInfo) {
    && WordsOf(d)
    && INT64_MIN <= d.Block <= INT64_MAX && INT64_MIN <= d.Used <= INT64_MAX
    && INT64_MIN <= d.Available <= INT64_MAX && INT64_MIN <= d.UsedPercent <= INT64_MAX
  }

  /** The seven fields `df` prints for a row. */
  function Cells(d: DfInfo): seq<string> {
    [d.Filesystem, d.Type, FormatInt(d.Block), FormatInt(d.Used), FormatInt(d.Available),
     FormatInt(d.UsedPercent) + "%", d.Mounted]
  }

  /** The line `df` prints for a row, fields separated by blanks. */
  function RowLine(d: DfInfo): string {
    Unwords(Cells(d))
  }

  lemma FormatIntWord(v: int)
    ensures var s := FormatInt(v);
            && Word(s) && s[0] != '%' && s[|s| - 1] != '%' && !IsSpace(s[|s| - 1])
  {
    var s := FormatInt(v);
    var d := FormatNat(if v >= 0 then v else -v);
    assert AllDigits(d);
    if v < 0 {
      assert s == "-" + d;
      assert s[|s| - 1] == d[|d| - 1];
    }
    assert forall j :: 0 <= j < |s| ==> IsDigit(s[j]) || s[j] == '-';
  }

  /** The `Use%` field is a word that loses exactly its `%` to the trim. */
  lemma PercentCell(v: int)
    ensures Word(FormatInt(v) + "%")
    ensures Trim(FormatInt(v) + "%", {'%'}) == FormatInt(v)
  {
    FormatIntWord(v);
    var pct := FormatInt(v);
    assert pct + "%" == pct + ['%'];
    TrimTrailing(pct, '%', {'%'});
  }

  /** The fields of a printable row are words. */
  lemma CellsAreWords(d: DfInfo)
    requires Printable(d)
    ensures forall i :: 0 <= i < |Cells(d)| ==> Word(Cells(d)[i])
  {
    FormatIntWord(d.Block);
    FormatIntWord(d.Used);
    FormatIntWord(d.Available);
    PercentCell(d.UsedPercent);
    forall i | 0 <= i < |Cells(d)|
      ensures Word(Cells(d)[i])
    {
      if i == 5 {
        assert Cells(d)[i] == FormatInt(d.UsedPercent) + "%";
      }
    }
  }

  /** Round trip for one line: the row `df` prints for `d` is parsed back to `d`. */
  lemma DfLineOfRowLine(d: DfInfo)
    requires Printable(d)
    ensures DfLine(RowLine(d)) == Some(d)
  {
    CellsAreWords(d);
    PercentCell(d.UsedPercent);
    FieldsOfUnwords(Cells(d));
    ParseFormatInt(d.Block);
    ParseFormatInt(d.Used);
    ParseFormatInt(d.Available);
    ParseFormatInt(d.UsedPercent);
  }

  /** The lines of a table body. */
  function RowLines(ds: seq<DfInfo>): (r: seq<string>)
    ensures |r| == |ds|
  {
    if ds == [] then [] else RowLines(ds[..|ds| - 1]) + [RowLine(ds[|ds| - 1])]
  }

  lemma {:induction false} DfRowsOfRowLines(ds: seq<DfInfo>)
    requires forall i :: 0 <= i < |ds| ==> Printable(ds[i])
    ensures DfRows(RowLines(ds)) == ds
  {
    if |ds| > 0 {
      var front := ds[..|ds| - 1];
      var d := ds[|ds| - 1];
      DfRowsOfRowLines(front);
      DfLineOfRowLine(d);
      DfRowsSnoc(RowLines(front), RowLine(d), d);
      LastSplit(ds);
    }
  }

  /** A non-empty sequence is its front followed by its last element. */
  lemma LastSplit<T>(s: seq<T>)
    requires |s| > 0
    ensures s == s[..|s| - 1] + [s[|s| - 1]]
  {
  }

  lemma DfRowsSnoc(ls: seq<string>, l: string, d: DfInfo)
    requires DfLine(l) == Some(d)
    ensures DfRows(ls + [l]) == DfRows(ls) + [d]
  {
    assert (ls + [l])[..|ls|] == ls;
  }

  lemma {:induction false} NoNewlineInUnwords(ws: seq<string>)
    requires forall i :: 0 <= i < |ws| ==> NoSpace(ws[i])
    ensures '\n' !in Unwords(ws)
  {
    if |ws| > 1 {
      NoNewlineInUnwords(ws[1..]);
      assert Unwords(ws) == ws[0] + " " + Unwords(ws[1..]);
    }
  }

  /**
   * Round trip for the whole table: a title line followed by the lines of
   * printable rows, with or without a failed exit status, parses to exactly
   * those rows, in order.
   */
  lemma ParsedDfOfTable(title: string, ds: seq<DfInfo>, cmdErr: Outcome)
    requires '\n' !in title
    requires |ds| > 0 && forall i :: 0 <= i < |ds| ==> Printable(ds[i])
    ensures ParsedDf(Joined([title] + RowLines(ds), '\n'), cmdErr) == Ok(ds)
  {
    var out := Joined([title] + RowLines(ds), '\n');
    SplitTable(title, ds);
    assert |out| > 0 by {
      assert out == title + ['\n'] + Joined(RowLines(ds), '\n');
    }
    var lines := Split(out, '\n');
    assert lines[1..] == RowLines(ds);
    DfRowsOfRowLines(ds);
  }

  lemma RowLineHasNoNewline(d: DfInfo)
    requires Printable(d)
    ensures '\n' !in RowLine(d)
  {
    CellsAreWords(d);
    NoNewlineInUnwords(Cells(d));
  }

  lemma {:induction false} RowLinesHaveNoNewline(ds: seq<DfInfo>)
    requires forall i :: 0 <= i < |ds| ==> Printable(ds[i])
    ensures forall j :: 0 <= j < |RowLines(ds)| ==> '\n' !in RowLines(ds)[j]
  {
    if ds != [] {
      RowLinesHaveNoNewline(ds[..|ds| - 1]);
      RowLineHasNoNewline(ds[|ds| - 1]);
    }
  }

  lemma NoNewlineInParts(title: string, rows: seq<string>)
    requires '\n' !in title
    requires forall j :: 0 <= j < |rows| ==> '\n' !in rows[j]
    ensures forall i :: 0 <= i < |[title] + rows| ==> '\n' !in ([title] + rows)[i]
  {
    forall i | 1 <= i < |[title] + rows|
      ensures '\n' !in ([title] + rows)[i]
    {
      assert ([title] + rows)[i] == rows[i - 1];
    }
  }

  /** The table's text splits back into its title and its row lines. */
  lemma SplitTable(title: string, ds: seq<DfInfo>)
    requires '\n' !in title
    requires forall i :: 0 <= i < |ds| ==> Printable(ds[i])
    ensures Split(Joined([title] + RowLines(ds), '\n'), '\n') == [title] + RowLines(ds)
  {
    var parts := [title] + RowLines(ds);
    RowLinesHaveNoNewline(ds);
    NoNewlineInParts(title, RowLines(ds));
    SplitOfJoined(parts, '\n');
  }

  // ---------------------------------------------------------------------------
  // The filters

  /** `skipMountedPath`: the root file system is never offered. */
  predicate SkipMountedPath(mount: string) {
    TrimSpace(mount) == "/"
  }

  /** `skipFilesystem`: RBD block devices `/dev/rbd<n>` are never offered. */
  predicate SkipFilesystem(fs: string) {
    var t := TrimSpace(fs);
    HasPrefix(t, RBD_PREFIX) && Atoi(TrimPrefix(t, RBD_PREFIX)).Parsed?
  }

  /** On a df word, `skipMountedPath` holds exactly for "/". */
  lemma SkipMountedPathOfWord(w: string)
    requires Word(w)
    ensures SkipMountedPath(w) <==> w == "/"
  {
    TrimUnchanged(w, SpaceChars);
  }

  /**
   * `skipFilesystem` holds for `/dev/rbd` followed by a number, and for no
   * name that does not start with `/dev/rbd` (such as `/dev/rbdx` or
   * `/dev/sda1`).
   */
  lemma SkipFilesystemRule(n: nat, fs: string)
    requires n <= INT64_MAX
    ensures SkipFilesystem(RBD_PREFIX + FormatNat(n))
    ensures !HasPrefix(TrimSpace(fs), RBD_PREFIX) ==> !SkipFilesystem(fs)
    ensures SkipFilesystem(fs) ==> SignedDecimal(TrimSpace(fs)[|RBD_PREFIX|..])
  {
    var s := RBD_PREFIX + FormatNat(n);
    FormatIntWord(n);
    assert s[|s| - 1] == FormatNat(n)[|FormatNat(n)| - 1];
    TrimUnchanged(s, SpaceChars);
    assert TrimPrefix(s, RBD_PREFIX) == FormatInt(n);
    ParseFormatInt(n);
  }

  // ---------------------------------------------------------------------------
  // Device media types

  /** `deviceFlagType`: rotational "0" is a solid-state disk, "1" a spinning one, anything else has no type. */
  function FlagType(rotational: string): (t: string)
    ensures t == SSD <==> rotational == "0"
    ensures t == HDD <==> rotational == "1"
    ensures t != UNKNOWN && t != NVME
  {
    if rotational == "0" then SSD else if rotational == "1" then HDD else ""
  }

  /** The media type a `rotational` file's content gives. */
  function Flag(out: string): string {
    FlagType(TrimSpace(out))
  }

  /** `deviceFlag`: the media type of each device under /sys/block, or the first failing `cat`. */
  function DeviceFlags(devices: seq<string>, cat: string -> Result<string>): Result<map<string, string>> {
    if |devices| == 0 then Ok(map[])
    else
      match DeviceFlags(devices[..|devices| - 1], cat)
      case Err(e) => Err(e)
      case Ok(m) =>
        var device := devices[|devices| - 1];
        match cat(device)
        case Err(e) => Err(e)
        case Ok(out) => Ok(m[device := Flag(out)])
  }

  /**
   * The flags cover exactly the listed devices, each with the type its
   * trimmed `rotational` file names; a failure is the failure of reading
   * some device's file.
   */
  lemma {:induction false} DeviceFlagsRead(devices: seq<string>, cat: string -> Result<string>)
    ensures var r := DeviceFlags(devices, cat);
            && (r.Ok? ==> && (forall k :: k in r.value <==> k in devices)
                          && forall k :: k in r.value ==> cat(k).Ok? && r.value[k] == Flag(cat(k).value))
            && (r.Err? ==> exists i :: 0 <= i < |devices| && cat(devices[i]) == Err(r.error))
  {
    if |devices| > 0 {
      var front := devices[..|devices| - 1];
      var device := devices[|devices| - 1];
      DeviceFlagsRead(front, cat);
      assert devices == front + [device];
      var r := DeviceFlags(devices, cat);
      if DeviceFlags(front, cat).Err? {
        var i :| 0 <= i < |front| && cat(front[i]) == Err(r.error);
        assert devices[i] == front[i];
      } else if r.Err? {
        assert cat(devices[|devices| - 1]) == Err(r.error);
      } else {
        var m := DeviceFlags(front, cat).value;
        assert r.value == m[device := Flag(cat(device).value)];
      }
    }
  }

  /** Reads the `rotational` flag of every listed device, in order. */
  method ReadDeviceFlags(devices: seq<string>, cat: string -> Result<string>) returns (r: Result<map<string, string>>)
    ensures r == DeviceFlags(devices, cat)
  {
    var deviceFlag: map<string, string> := map[];
    for n := 0 to |devices|
      invariant DeviceFlags(devices[..n], cat) == Ok(deviceFlag)
    {
      assert devices[..n + 1][..n] == devices[..n];
      var diskType := cat(devices[n]);
      if diskType.Err? {
        DeviceFlagsErrorStays(devices, cat, n + 1);
        return Err(diskType.error);
      }
      deviceFlag := deviceFlag[devices[n] := FlagType(TrimSpace(diskType.value))];
    }
    assert devices[..|devices|] == devices;
    return Ok(deviceFlag);
  }

  /** Once a prefix of the listing fails, the whole listing fails the same way. */
  lemma {:induction false} DeviceFlagsErrorStays(devices: seq<string>, cat: string -> Result<string>, n: nat)
    requires n <= |devices| && DeviceFlags(devices[..n], cat).Err?
    ensures DeviceFlags(devices, cat) == DeviceFlags(devices[..n], cat)
    decreases |devices| - n
  {
    if n < |devices| {
      assert devices[..n + 1][..n] == devices[..n];
      DeviceFlagsErrorStays(devices, cat, n + 1);
    } else {
      assert devices[..n] == devices;
    }
  }

  /** Some listed device's name occurs in the file system's name. */
  predicate Known(filesystem: string, flags: map<string, string>) {
    exists k :: k in flags && Contains(filesystem, k)
  }

  /**
   * The range over `deviceFlag`: the type of a device whose name occurs in
   * the file system's name, or "unknown" when there is none. Which device
   * wins when several occur depends on the map's order.
   */
  method Classify(filesystem: string, flags: map<string, string>) returns (diskType: string)
    ensures !Known(filesystem, flags) ==> diskType == UNKNOWN
    ensures Known(filesystem, flags) ==> exists k :: k in flags && Contains(filesystem, k) && flags[k] == diskType
  {
    diskType := UNKNOWN;
    var left := flags.Keys;
    while left != {}
      invariant left <= flags.Keys
      invariant (forall k :: k in flags && k !in left ==> !Contains(filesystem, k)) ==> diskType == UNKNOWN
      invariant (exists k :: k in flags && k !in left && Contains(filesystem, k)) ==>
                  exists k :: k in flags && Contains(filesystem, k) && flags[k] == diskType
      decreases |left|
    {
      var k :| k in left;
      if Contains(filesystem, k) {
        diskType := flags[k];
      }
      left := left - {k};
    }
  }

  // ---------------------------------------------------------------------------
  // Collect

  /** A row survives the filters: not the boot path, not "/", not an RBD device, on a listed device. */
  predicate Keeps(info: DfInfo, bootPath: string, flags: map<string, string>) {
    && info.Mounted != bootPath
    && !SkipMountedPath(info.Mounted)
    && !SkipFilesystem(info.Filesystem)
    && Known(info.Filesystem, flags)
  }

  function Kept(infos: seq<DfInfo>, bootPath: string, flags: map<string, string>): seq<DfInfo> {
    if |infos| == 0 then []
    else
      var last := infos[|infos| - 1];
      Kept(infos[..|infos| - 1], bootPath, flags) + (if Keeps(last, bootPath, flags) then [last] else [])
  }

  /** The media type of a kept row: "nvme" for an NVMe device, otherwise the type of a matching device. */
  predicate MediaOf(filesystem: string, flags: map<string, string>, isNvme: string -> bool, media: string) {
    if isNvme(filesystem) && HasPrefix(filesystem, NVME_PREFIX) then media == NVME
    else exists k :: k in flags && Contains(filesystem, k) && flags[k] == media
  }

  /** What the id is the MD5 sum of. */
  function IdKey(info: DfInfo, media: string): string {
    info.Filesystem + "_" + info.Type + "_" + media
  }

  /** The disk `Collect` builds from a kept row with media type `d.MediaType`. */
  predicate DiskOf(info: DfInfo, d: DiskInfo, flags: map<string, string>, isNvme: string -> bool, md5: string -> string) {
    && MediaOf(info.Filesystem, flags, isNvme, d.MediaType)
    && d == DiskInfo(md5(IdKey(info, d.MediaType)), info.Type, d.MediaType, info.Filesystem, info.Mounted,
                     info.Block, 0, false, false, info.Used, info.UsedPercent)
  }

  /**
   * The path `Collect` compares mount points with: as written, the raw
   * output of `readlink -f`; as intended, that output with its line end
   * trimmed.
   */
  function BootPath(readlinkOut: string, trimmed: bool): (p: string)
    ensures !trimmed ==> p == readlinkOut
  {
    if trimmed then TrimSpace(readlinkOut) else readlinkOut
  }

  /**
   * The outcome of `Collect`: the first failing command is the error;
   * otherwise the disks of the `df` rows that survive the filters, in order,
   * one per row.
   */
  predicate Collected(ls: Result<string>, cat: string -> Result<string>, readlink: Result<string>,
                      dfOut: string, dfErr: Outcome, isNvme: string -> bool, md5: string -> string,
                      trimmed: bool, r: Result<seq<DiskInfo>>)
  {
    && (ls.Err? ==> r == Err(ls.error))
    && (ls.Ok? && DeviceFlags(Fields(ls.value), cat).Err? ==> r == Err(DeviceFlags(Fields(ls.value), cat).error))
    && (ls.Ok? && DeviceFlags(Fields(ls.value), cat).Ok? && readlink.Err? ==> r == Err(readlink.error))
    && (ls.Ok? && DeviceFlags(Fields(ls.value), cat).Ok? && readlink.Ok? && ParsedDf(dfOut, dfErr).Err? ==>
          r == Err(ParsedDf(dfOut, dfErr).error))
    && (ls.Ok? && DeviceFlags(Fields(ls.value), cat).Ok? && readlink.Ok? && ParsedDf(dfOut, dfErr).Ok? ==>
          && r.Ok?
          && var flags := DeviceFlags(Fields(ls.value), cat).value;
             var kept := Kept(ParsedDf(dfOut, dfErr).value, BootPath(readlink.value, trimmed), flags);
             && |r.value| == |kept|
             && forall i :: 0 <= i < |kept| ==> DiskOf(kept[i], r.value[i], flags, isNvme, md5))
  }

  /** `Collect` as written: mount points are compared with the raw `readlink -f` output. */
  method Collect(ls: Result<string>, cat: string -> Result<string>, readlink: Result<string>,
                 dfOut: string, dfErr: Outcome, isNvme: string -> bool, md5: string -> string)
    returns (r: Result<seq<DiskInfo>>)
    ensures Collected(ls, cat, readlink, dfOut, dfErr, isNvme, md5, false, r)
  {
    r := CollectFrom(ls, cat, readlink, dfOut, dfErr, isNvme, md5, false);
  }

  /** `Collect` as intended: mount points are compared with the trimmed `readlink -f` output. */
  method CollectTrimmed(ls: Result<string>, cat: string -> Result<string>, readlink: Result<string>,
                        dfOut: string, dfErr: Outcome, isNvme: string -> bool, md5: string -> string)
    returns (r: Result<seq<DiskInfo>>)
    ensures Collected(ls, cat, readlink, dfOut, dfErr, isNvme, md5, true, r)
  {
    r := CollectFrom(ls, cat, readlink, dfOut, dfErr, isNvme, md5, true);
  }

  method CollectFrom(ls: Result<string>, cat: string -> Result<string>, readlink: Result<string>,
                     dfOut: string, dfErr: Outcome, isNvme: string -> bool, md5: string -> string, trimmed: bool)
    returns (r: Result<seq<DiskInfo>>)
    ensures Collected(ls, cat, readlink, dfOut, dfErr, isNvme, md5, trimmed, r)
  {
    if ls.Err? {
      return Err(ls.error);
    }
    var flags := ReadDeviceFlags(Fields(ls.value), cat);
    if flags.Err? {
      return Err(flags.error);
    }
    if readlink.Err? {
      return Err(readlink.error);
    }
    var bootPath := if trimmed then TrimSpace(readlink.value) else readlink.value;
    var infos := ParseDf(dfOut, dfErr);
    if infos.Err? {
      return Err(infos.error);
    }
    DeviceFlagsRead(Fields(ls.value), cat);
    var disks := CollectRows(infos.value, bootPath, flags.value, isNvme, md5);
    return Ok(disks);
  }

  /** The loop of `Collect` over the `df` rows. */
  method CollectRows(rows: seq<DfInfo>, bootPath: string, flags: map<string, string>,
                     isNvme: string -> bool, md5: string -> string)
    returns (disks: seq<DiskInfo>)
    requires forall k :: k in flags ==> flags[k] != UNKNOWN
    ensures |disks| == |Kept(rows, bootPath, flags)|
    ensures forall i :: 0 <= i < |disks| ==> DiskOf(Kept(rows, bootPath, flags)[i], disks[i], flags, isNvme, md5)
  {
    disks := [];
    for n := 0 to |rows|
      invariant |disks| == |Kept(rows[..n], bootPath, flags)|
      invariant forall i :: 0 <= i < |disks| ==> DiskOf(Kept(rows[..n], bootPath, flags)[i], disks[i], flags, isNvme, md5)
    {
      assert rows[..n + 1][..n] == rows[..n];
      var info := rows[n];
      if info.Mounted == bootPath {
        continue;
      }
      if SkipMountedPath(info.Mounted) {
        continue;
      }
      if SkipFilesystem(info.Filesystem) {
        continue;
      }
      var diskType := Classify(info.Filesystem, flags);
      if diskType == UNKNOWN {
        continue;
      }
      if isNvme(info.Filesystem) && HasPrefix(info.Filesystem, NVME_PREFIX) {
        diskType := NVME;
      }
      disks := disks + [DiskInfo(md5(IdKey(info, diskType)), info.Type, diskType, info.Filesystem, info.Mounted,
                                 info.Block, 0, false, false, info.Used, info.UsedPercent)];
    }
    assert rows[..|rows|] == rows;
  }

  /** Every kept row passed every filter. */
  lemma {:induction false} KeptKeeps(infos: seq<DfInfo>, bootPath: string, flags: map<string, string>)
    ensures forall x :: x in Kept(infos, bootPath, flags) ==> x in infos && Keeps(x, bootPath, flags)
  {
    if |infos| > 0 {
      KeptKeeps(infos[..|infos| - 1], bootPath, flags);
    }
  }

  /**
   * A collected disk never sits on "/" or on an RBD device, sits on a
   * listed device, and has the media type SSD, HDD, "nvme" or, for a
   * device whose `rotational` file says neither 0 nor 1, the empty type.
   */
  lemma CollectedDisk(infos: seq<DfInfo>, bootPath: string, devices: seq<string>, cat: string -> Result<string>,
                      isNvme: string -> bool, md5: string -> string, i: nat, d: DiskInfo)
    requires DeviceFlags(devices, cat).Ok?
    requires i < |Kept(infos, bootPath, DeviceFlags(devices, cat).value)|
    requires DiskOf(Kept(infos, bootPath, DeviceFlags(devices, cat).value)[i], d, DeviceFlags(devices, cat).value, isNvme, md5)
    ensures !SkipMountedPath(d.MountPoint) && !SkipFilesystem(d.FileSystem) && d.MountPoint != bootPath
    ensures exists k :: k in devices && Contains(d.FileSystem, k)
    ensures d.MediaType in {SSD, HDD, NVME, ""}
  {
    var flags := DeviceFlags(devices, cat).value;
    var kept := Kept(infos, bootPath, flags);
    KeptKeeps(infos, bootPath, flags);
    DeviceFlagsRead(devices, cat);
    assert kept[i] in kept;
    var k :| k in flags && Contains(d.FileSystem, k);
    assert k in devices;
  }

  // ---------------------------------------------------------------------------
  // The boot path

  /** The comparison as written: the `df` mount point against the raw output of `readlink -f`. */
  predicate BootSkipAsWritten(mounted: string, readlinkOut: string) {
    mounted == readlinkOut
  }

  /**
   * `readlink -f` ends its output with a line end, which no `df` field
   * holds: as written (`Collect`), the comparison never drops the boot path.
   */
  lemma BootSkipAsWrittenNeverFires(out: string, cmdErr: Outcome, path: string, i: nat)
    requires ParsedDf(out, cmdErr).Ok? && i < |ParsedDf(out, cmdErr).value|
    ensures !BootSkipAsWritten(ParsedDf(out, cmdErr).value[i].Mounted, path + "\n")
  {
    var lines := Split(out, '\n');
    DfRowsAreWords(lines[1..]);
    var m := ParsedDf(out, cmdErr).value[i].Mounted;
    assert (path + "\n")[|path|] == '\n';
    if m == path + "\n" {
      assert IsSpace(m[|path|]);
    }
  }

  /** With the line end trimmed, as `CollectTrimmed` does, a row mounted at the working directory's path is dropped. */
  lemma BootPathDropped(infos: seq<DfInfo>, path: string, flags: map<string, string>, i: nat)
    requires Word(path) && i < |infos| && infos[i].Mounted == path
    ensures infos[i] !in Kept(infos, BootPath(path + "\n", true), flags)
  {
    assert path + "\n" == path + ['\n'];
    TrimTrailing(path, '\n', SpaceChars);
    KeptKeeps(infos, TrimSpace(path + "\n"), flags);
  }
}
