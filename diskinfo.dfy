/**
 * The `df` reader of docker's system package
 * (vendor/github.com/docker/docker/pkg/system/diskinfo.go and
 * diskinfo_linux.go): `ReadDisksInfo` runs plain `df` and keeps every line
 * of exactly six fields as a `DiskInfo`, and `DisksInfo.DiskInfo` looks an
 * entry up by its mount point.
 *
 * The command is an input: the text it printed and how it exited.
 */
module SystemDisk {
  import opened Wrappers
  import opened GoStrings
  import opened GoStrconv
  import DockerDisk

  /** One line of `df`: the sizes are the 1K-blocks, Used and Available columns. */
  datatype DiskInfo = DiskInfo(
    Filesystem: string,
    TotalSize: int,
    AvailSize: int,
    UsedSize: int,
    MountedOn: string)

  // ---------------------------------------------------------------------------
  // DisksInfo.DiskInfo

  /**
   * `DisksInfo.DiskInfo(mountedOn)`: the entry the returned `*DiskInfo`
   * refers to, given by its position, or None for `nil`.
   */
  function Lookup(dsi: seq<DiskInfo>, mountedOn: string): (r: Option<nat>)
    ensures r.None? <==> forall j :: 0 <= j < |dsi| ==> dsi[j].MountedOn != mountedOn
    ensures r.Some? ==> r.value < |dsi| && dsi[r.value].MountedOn == mountedOn
                        && forall j :: 0 <= j < r.value ==> dsi[j].MountedOn != mountedOn
  {
    if |dsi| == 0 then None
    else if dsi[0].MountedOn == mountedOn then Some(0)
    else
      match Lookup(dsi[1..], mountedOn)
      case None => None
      case Some(k) => Some(k + 1)
  }

  /** Entries behind the first match do not change what the lookup finds. */
  lemma {:induction false} LookupIgnoresLater(a: seq<DiskInfo>, b: seq<DiskInfo>, mountedOn: string)
    requires Lookup(a, mountedOn).Some?
    ensures Lookup(a + b, mountedOn) == Lookup(a, mountedOn)
  {
    var k := Lookup(a, mountedOn).value;
    assert forall j :: 0 <= j <= k ==> (a + b)[j] == a[j];
  }

  // ---------------------------------------------------------------------------
  // ReadDisksInfo, one line at a time

  /** What one line contributes: nothing, an error that ends the call, or an entry. */
  datatype LineResult = Skip | Bad(error: string) | Row(info: DiskInfo)

  /** `strconv.ParseInt(s, 10, 0)`, `int` being 64 bits wide. */
  function ParseSize(s: string): (r: Result<int>)
    ensures r.Ok? <==> ParseInt64(s).Parsed?
    ensures r.Ok? ==> r.value == ParseInt64(s).value
  {
    var n := ParseInt64(s);
    if n.Parsed? then Ok(n.value) else Err(ParseIntError(s, n))
  }

  /**
   * A line of six fields is an entry: the file system is the first, the
   * mount point the sixth, and the total, used and available sizes the
   * second, third and fourth, parsed in that order. Any other line is skipped.
   */
  function DiskLine(line: string): LineResult {
    var parts := Fields(line);
    if |parts| != 6 then Skip
    else
      var total := ParseSize(parts[1]);
      if total.Err? then Bad(total.error)
      else
        var used := ParseSize(parts[2]);
        if used.Err? then Bad(used.error)
        else
          var avail := ParseSize(parts[3]);
          if avail.Err? then Bad(avail.error)
          else Row(DiskInfo(parts[0], total.value, avail.value, used.value, parts[5]))
  }

  /** The loop of `ReadDisksInfo` over `lines`: the entries in order, or the first error. */
  function DisksOf(lines: seq<string>): Result<seq<DiskInfo>>
  {
    if |lines| == 0 then Ok([])
    else
      var before := DisksOf(lines[..|lines| - 1]);
      if before.Err? then before
      else
        match DiskLine(lines[|lines| - 1])
        case Skip => before
        case Bad(e) => Err(e)
        case Row(d) => Ok(before.value + [d])
  }

  /** `ReadDisksInfo` on what `df` printed and how it exited. */
  function ReadDisks(out: string, cmdErr: Outcome): Result<seq<DiskInfo>> {
    if cmdErr.Fail? then Err(cmdErr.error) else DisksOf(Split(out, '\n'))
  }

  /** `ReadDisksInfo`: a failed `df` is its error; otherwise the lines are read in order. */
  method ReadDisksInfo(out: string, cmdErr: Outcome) returns (r: Result<seq<DiskInfo>>)
    ensures r == ReadDisks(out, cmdErr)
  {
    if cmdErr.Fail? {
      return Err(cmdErr.error);
    }
    var lines := Split(out, '\n');
    var dsi: seq<DiskInfo> := [];
    for n := 0 to |lines|
      invariant DisksOf(lines[..n]) == Ok(dsi)
    {
      var line := ReadLine(lines[n]);
      DisksOfStep(lines, n);
      match line
      case Skip =>
      case Bad(e) =>
        ErrorIsFinal(lines, n + 1);
        return Err(e);
      case Row(di) =>
        dsi := dsi + [di];
    }
    assert lines[..|lines|] == lines;
    return Ok(dsi);
  }

  /** The body of the loop of `ReadDisksInfo` for one line. */
  method ReadLine(line: string) returns (r: LineResult)
    ensures r == DiskLine(line)
  {
    var parts := Fields(line);
    if |parts| != 6 {
      return Skip;
    }
    var total := ParseInt64(parts[1]);
    if !total.Parsed? {
      return Bad(ParseIntError(parts[1], total));
    }
    var used := ParseInt64(parts[2]);
    if !used.Parsed? {
      return Bad(ParseIntError(parts[2], used));
    }
    var avail := ParseInt64(parts[3]);
    if !avail.Parsed? {
      return Bad(ParseIntError(parts[3], avail));
    }
    return Row(DiskInfo(parts[0], total.value, avail.value, used.value, parts[5]));
  }

  // ---------------------------------------------------------------------------
  // Properties of the reader

  /** Once a prefix of the lines has failed, the later lines change nothing. */
  lemma {:induction false} ErrorsAreSticky(a: seq<string>, b: seq<string>)
    requires DisksOf(a).Err?
    ensures DisksOf(a + b) == DisksOf(a)
    decreases |b|
  {
    if |b| == 0 {
      assert a + b == a;
    } else {
      ErrorsAreSticky(a, b[..|b| - 1]);
      assert (a + b)[..|a + b| - 1] == a + b[..|b| - 1];
    }
  }

  /** One more line read after a prefix that did not fail. */
  lemma DisksOfStep(lines: seq<string>, n: int)
    requires 0 <= n < |lines| && DisksOf(lines[..n]).Ok?
    ensures DisksOf(lines[..n + 1]) ==
              match DiskLine(lines[n])
              case Skip => DisksOf(lines[..n])
              case Bad(e) => Err(e)
              case Row(d) => Ok(DisksOf(lines[..n]).value + [d])
  {
    assert lines[..n + 1][..n] == lines[..n];
  }

  lemma ErrorIsFinal(lines: seq<string>, n: int)
    requires 0 <= n <= |lines| && DisksOf(lines[..n]).Err?
    ensures DisksOf(lines) == DisksOf(lines[..n])
  {
    ErrorsAreSticky(lines[..n], lines[n..]);
    assert lines[..n] + lines[n..] == lines;
  }

  /**
   * Entries keep the order of their lines: when neither run of lines fails,
   * the entries of both runs are those of the first, then those of the second.
   */
  lemma {:induction false} DisksOfAppend(a: seq<string>, b: seq<string>)
    requires DisksOf(a).Ok? && DisksOf(b).Ok?
    ensures DisksOf(a + b) == Ok(DisksOf(a).value + DisksOf(b).value)
    decreases |b|
  {
    if |b| == 0 {
      assert a + b == a;
      assert DisksOf(a).value + [] == DisksOf(a).value;
    } else {
      var c := b[..|b| - 1];
      assert (a + b)[..|a + b| - 1] == a + c;
      assert (a + b)[|a + b| - 1] == b[|b| - 1];
      assert DisksOf(c).Ok?;
      DisksOfAppend(a, c);
      match DiskLine(b[|b| - 1])
      case Skip =>
      case Row(d) =>
        assert DisksOf(a).value + DisksOf(c).value + [d] == DisksOf(a).value + (DisksOf(c).value + [d]);
    }
  }

  /**
   * One line that does not parse makes the whole call fail with its error,
   * whatever stands after it; `ParseDf` would skip such a line instead.
   */
  lemma BadLineAborts(a: seq<string>, l: string, b: seq<string>)
    requires DisksOf(a).Ok? && DiskLine(l).Bad?
    ensures DisksOf(a + [l] + b) == Err(DiskLine(l).error)
  {
    assert (a + [l])[..|a|] == a;
    ErrorsAreSticky(a + [l], b);
  }

  /** Lines that are not of six fields contribute nothing. */
  function SixFieldLines(lines: seq<string>): nat {
    if |lines| == 0 then 0
    else SixFieldLines(lines[..|lines| - 1]) + (if |Fields(lines[|lines| - 1])| == 6 then 1 else 0)
  }

  /**
   * A successful read has one entry per line of six fields, and every entry
   * is what some line parses to.
   */
  lemma {:induction false} EntriesAreRows(lines: seq<string>)
    requires DisksOf(lines).Ok?
    ensures |DisksOf(lines).value| == SixFieldLines(lines)
    ensures forall k :: 0 <= k < |DisksOf(lines).value| ==>
              exists j :: 0 <= j < |lines| && DiskLine(lines[j]) == Row(DisksOf(lines).value[k])
  {
    if |lines| > 0 {
      var front := lines[..|lines| - 1];
      EntriesAreRows(front);
      var v := DisksOf(front).value;
      forall k | 0 <= k < |v|
        ensures exists j :: 0 <= j < |lines| && DiskLine(lines[j]) == Row(v[k])
      {
        var j :| 0 <= j < |front| && DiskLine(front[j]) == Row(v[k]);
        assert lines[j] == front[j];
      }
    }
  }

  // ---------------------------------------------------------------------------
  // The table `df` prints, for the round trip

  /** The title line of plain `df`: seven fields, because of "Mounted on". */
  const HEADER: seq<string> := ["Filesystem", "1K-blocks", "Used", "Available", "Use%", "Mounted", "on"]

  /** The title line is skipped. */
  lemma HeaderSkipped()
    ensures DiskLine(Unwords(HEADER)) == Skip
  {
    HeaderWords();
    FieldsOfUnwords(HEADER);
  }

  lemma HeaderWords()
    ensures forall i :: 0 <= i < |HEADER| ==> |HEADER[i]| > 0 && NoSpace(HEADER[i])
  {
    forall i | 0 <= i < |HEADER|
      ensures |HEADER[i]| > 0 && NoSpace(HEADER[i])
    {
      assert Graphic(HEADER[i]);
      GraphicNoSpace(HEADER[i]);
    }
  }

  /** An entry `df` can print: single-word names and 64-bit sizes. */
  predicate Printable(d: DiskInfo) {
    && DockerDisk.Word(d.Filesystem) && DockerDisk.Word(d.MountedOn)
    && INT64_MIN <= d.TotalSize <= INT64_MAX && INT64_MIN <= d.UsedSize <= INT64_MAX
    && INT64_MIN <= d.AvailSize <= INT64_MAX
  }

  /** The six fields `df` prints for an entry, in its column order, with the `Use%` column `pct`. */
  function Cells(d: DiskInfo, pct: string): seq<string> {
    [d.Filesystem, FormatInt(d.TotalSize), FormatInt(d.UsedSize), FormatInt(d.AvailSize), pct, d.MountedOn]
  }

  lemma CellsAreWords(d: DiskInfo, pct: string)
    requires Printable(d) && DockerDisk.Word(pct)
    ensures forall i :: 0 <= i < |Cells(d, pct)| ==> |Cells(d, pct)[i]| > 0 && NoSpace(Cells(d, pct)[i])
  {
    DockerDisk.FormatIntWord(d.TotalSize);
    DockerDisk.FormatIntWord(d.UsedSize);
    DockerDisk.FormatIntWord(d.AvailSize);
  }

  /**
   * Round trip for one line: the line `df` prints for an entry is read back
   * as that entry, the used size from the third column and the available
   * size from the fourth.
   */
  lemma DiskLineOfCells(d: DiskInfo, pct: string)
    requires Printable(d) && DockerDisk.Word(pct)
    ensures DiskLine(Unwords(Cells(d, pct))) == Row(d)
  {
    CellsAreWords(d, pct);
    FieldsOfUnwords(Cells(d, pct));
    ParseFormatInt(d.TotalSize);
    ParseFormatInt(d.UsedSize);
    ParseFormatInt(d.AvailSize);
  }

  /** The lines of a table body, entry `i` with `Use%` column `pcts[i]`. */
  function RowLines(ds: seq<DiskInfo>, pcts: seq<string>): (r: seq<string>)
    requires |pcts| == |ds|
    ensures |r| == |ds|
  {
    if ds == [] then []
    else RowLines(ds[..|ds| - 1], pcts[..|ds| - 1]) + [Unwords(Cells(ds[|ds| - 1], pcts[|ds| - 1]))]
  }

  /** Entries that `df` can print, each with a one-word `Use%` column. */
  predicate Table(ds: seq<DiskInfo>, pcts: seq<string>) {
    |pcts| == |ds| && forall i :: 0 <= i < |ds| ==> Printable(ds[i]) && DockerDisk.Word(pcts[i])
  }

  lemma {:induction false} DisksOfRowLines(ds: seq<DiskInfo>, pcts: seq<string>)
    requires Table(ds, pcts)
    ensures DisksOf(RowLines(ds, pcts)) == Ok(ds)
  {
    if |ds| > 0 {
      var n := |ds| - 1;
      assert Table(ds[..n], pcts[..n]);
      DisksOfRowLines(ds[..n], pcts[..n]);
      DiskLineOfCells(ds[n], pcts[n]);
      RowLinesSnoc(RowLines(ds[..n], pcts[..n]), Unwords(Cells(ds[n], pcts[n])), ds[..n], ds[n]);
      DockerDisk.LastSplit(ds);
    }
  }

  lemma RowLinesSnoc(ls: seq<string>, l: string, front: seq<DiskInfo>, d: DiskInfo)
    requires DisksOf(ls) == Ok(front) && DiskLine(l) == Row(d)
    ensures DisksOf(ls + [l]) == Ok(front + [d])
  {
    assert (ls + [l])[..|ls|] == ls;
  }

  lemma {:induction false} RowLinesHaveNoNewline(ds: seq<DiskInfo>, pcts: seq<string>)
    requires Table(ds, pcts)
    ensures forall j :: 0 <= j < |RowLines(ds, pcts)| ==> '\n' !in RowLines(ds, pcts)[j]
  {
    if |ds| > 0 {
      var n := |ds| - 1;
      assert Table(ds[..n], pcts[..n]);
      RowLinesHaveNoNewline(ds[..n], pcts[..n]);
      CellsAreWords(ds[n], pcts[n]);
      DockerDisk.NoNewlineInUnwords(Cells(ds[n], pcts[n]));
    }
  }

  /**
   * Round trip for the whole output: the title line, the lines of printable
   * entries and the final newline read back as exactly those entries, in order.
   */
  lemma ReadDisksOfTable(ds: seq<DiskInfo>, pcts: seq<string>)
    requires Table(ds, pcts)
    ensures ReadDisks(Joined([Unwords(HEADER)] + RowLines(ds, pcts) + [""], '\n'), Pass) == Ok(ds)
  {
    var rows := RowLines(ds, pcts);
    var parts := [Unwords(HEADER)] + rows + [""];
    RowLinesHaveNoNewline(ds, pcts);
    HeaderHasNoNewline();
    NoNewlineInTableParts(Unwords(HEADER), rows);
    SplitOfJoined(parts, '\n');
    DisksOfRowLines(ds, pcts);
    HeaderSkipped();
    TableLines(Unwords(HEADER), rows, ds);
  }

  lemma HeaderHasNoNewline()
    ensures '\n' !in Unwords(HEADER)
  {
    HeaderWords();
    DockerDisk.NoNewlineInUnwords(HEADER);
  }

  lemma NoNewlineInTableParts(title: string, rows: seq<string>)
    requires '\n' !in title
    requires forall j :: 0 <= j < |rows| ==> '\n' !in rows[j]
    ensures forall i :: 0 <= i < |[title] + rows + [""]| ==> '\n' !in ([title] + rows + [""])[i]
  {
    forall i | 1 <= i <= |rows|
      ensures '\n' !in ([title] + rows + [""])[i]
    {
      assert ([title] + rows + [""])[i] == rows[i - 1];
    }
  }

  /** A skipped title line, rows that read as `ds`, and an empty last line read as `ds`. */
  lemma TableLines(title: string, rows: seq<string>, ds: seq<DiskInfo>)
    requires DiskLine(title) == Skip && DisksOf(rows) == Ok(ds)
    ensures DisksOf([title] + rows + [""]) == Ok(ds)
  {
    assert DisksOf([title]) == Ok([]) by {
      assert [title][..0] == [];
    }
    DisksOfAppend([title], rows);
    assert [] + ds == ds;
    assert DiskLine("") == Skip;
    assert DisksOf([""]) == Ok([]) by {
      assert [""][..0] == [];
    }
    DisksOfAppend([title] + rows, [""]);
    assert ds + [] == ds;
  }
}

/** Worked examples of the reader, on the layout of a plain `df` run. */
module SystemDiskExamples {
  import opened Wrappers
  import opened SystemDisk

  /** Lookup finds the first entry of a mount point and nothing for an unknown one. */
  lemma LookupCases()
    ensures var dsi := [DiskInfo("/dev/sda1", 10, 5, 5, "/"), DiskInfo("tmpfs", 4, 4, 0, "/run"),
                        DiskInfo("/dev/sdb1", 8, 8, 0, "/run")];
            Lookup(dsi, "/run") == Some(1) && Lookup(dsi, "/data") == None
  {
  }
}
