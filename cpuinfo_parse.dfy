/**
 * `parseCpuInfo` (vendor/github.com/docker/docker/pkg/system/cpuinfo_linux.go):
 * the lines of /proc/cpuinfo are read one by one; "physical id", "core id"
 * and "processor" set the current socket, core and processor (each a
 * 16-bit decimal), and the blank line that closes a processor's block
 * records the three in the topology.
 *
 * The scanner is given as the lines it yields and the error it reports at
 * the end.
 */
module SystemCpuParse {
  import opened Wrappers
  import opened GoStrings
  import opened GoStrconv
  import opened SystemCpu

  /** The key of a line: the text before the first colon, trimmed. */
  function Key(line: string): string {
    TrimSpace(SplitN2(line, ':')[0])
  }

  /** The value of a line: the text after the first colon, trimmed. */
  function Val(line: string): string
    requires ':' in line
  {
    TrimSpace(SplitN2(line, ':')[1])
  }

  predicate Numbered(key: string) {
    key == "physical id" || key == "core id" || key == "processor"
  }

  /**
   * A line the parser can read: one of the three numbered keys always comes
   * with a colon. Without one, the source indexes past the single part of
   * the split and panics.
   */
  predicate Readable(line: string) {
    Numbered(Key(line)) ==> ':' in line
  }

  /** A numbered line whose value is not a 16-bit decimal. */
  predicate BadLine(line: string) {
    Numbered(Key(line)) && ':' in line && !ParseInt16(Val(line)).Parsed?
  }

  /** The scanner's state: the current socket, core and processor, the processor count and the sockets. */
  datatype Scan = Scan(socket: int, core: int, processor: int, count: int, sockets: seq<Socket>)

  const Start := Scan(0, 0, 0, 0, [])

  /** Processor `p` sits on a core `c` of a socket `s`. */
  predicate Placed(ss: seq<Socket>, s: int, c: int, p: int) {
    exists k, j :: 0 <= k < |ss| && 0 <= j < |ss[k].cores| &&
      ss[k].index == s && ss[k].cores[j].index == c && p in ss[k].cores[j].processors
  }

  /** `p` added to the first core `c` of `cs`, or to a new core `c` at the end. */
  function PlaceOnCores(cs: seq<Core>, c: int, p: int): seq<Core>
    decreases |cs|
  {
    if |cs| == 0 then [Core(c, [p])]
    else if cs[0].index == c then [cs[0].AddProcessor(p)] + cs[1..]
    else [cs[0]] + PlaceOnCores(cs[1..], c, p)
  }

  /**
   * What a blank line does to the sockets: `p` is added to core `c` of the
   * first socket `s`, the socket and the core being created at the end when
   * absent.
   */
  function Record(ss: seq<Socket>, s: int, c: int, p: int): seq<Socket>
    decreases |ss|
  {
    if |ss| == 0 then [Socket(s, [Core(c, [p])])]
    else if ss[0].index == s then [ss[0].(cores := PlaceOnCores(ss[0].cores, c, p))] + ss[1..]
    else [ss[0]] + Record(ss[1..], s, c, p)
  }

  /** One line. */
  function Step(st: Scan, line: string): Result<Scan>
    requires Readable(line)
  {
    var key := Key(line);
    if Numbered(key) then
      var v := ParseInt16(Val(line));
      if !v.Parsed? then Err(ParseIntError(Val(line), v))
      else if key == "physical id" then Ok(st.(socket := v.value))
      else if key == "core id" then Ok(st.(core := v.value))
      else Ok(st.(processor := v.value, count := st.count + 1))
    else if key == "" then Ok(st.(sockets := Record(st.sockets, st.socket, st.core, st.processor)))
    else Ok(st)
  }

  /** The lines from `st` on; the first failing line ends the scan. */
  function Scanned(lines: seq<string>, st: Scan): Result<Scan>
    requires forall i :: 0 <= i < |lines| ==> Readable(lines[i])
    decreases |lines|
  {
    if |lines| == 0 then Ok(st)
    else
      match Step(st, lines[0])
      case Err(e) => Err(e)
      case Ok(next) => Scanned(lines[1..], next)
  }

  /** `parseCpuInfo` on the lines and the scanner's final error. */
  function ParsedCpuInfo(lines: seq<string>, scanErr: Outcome): Result<Scan>
    requires forall i :: 0 <= i < |lines| ==> Readable(lines[i])
  {
    match Scanned(lines, Start)
    case Err(e) => Err(e)
    case Ok(st) => if scanErr.Fail? then Err(scanErr.error) else Ok(st)
  }

  /** `parseCpuInfo`. */
  method ParseCpuInfo(lines: seq<string>, scanErr: Outcome) returns (r: Result<CpuInfo>)
    requires forall i :: 0 <= i < |lines| ==> Readable(lines[i])
    ensures ParsedCpuInfo(lines, scanErr).Err? ==> r == Err(ParsedCpuInfo(lines, scanErr).error)
    ensures ParsedCpuInfo(lines, scanErr).Ok? ==>
              && r.Ok? && fresh(r.value)
              && r.value.processors == ParsedCpuInfo(lines, scanErr).value.count
              && r.value.sockets == ParsedCpuInfo(lines, scanErr).value.sockets
  {
    var cpuinfo := new CpuInfo();
    var currentSocket, currentCore, currentProcessor := 0, 0, 0;
    for i := 0 to |lines|
      invariant Scanned(lines, Start)
                == Scanned(lines[i..], Scan(currentSocket, currentCore, currentProcessor, cpuinfo.processors, cpuinfo.sockets))
    {
      assert lines[i..][1..] == lines[i + 1..];
      var current := ScanLine(cpuinfo, lines[i], currentSocket, currentCore, currentProcessor);
      if current.Err? {
        return Err(current.error);
      }
      currentSocket, currentCore, currentProcessor := current.value.0, current.value.1, current.value.2;
    }
    if scanErr.Fail? {
      return Err(scanErr.error);
    }
    return Ok(cpuinfo);
  }

  /** The body of the scanner loop of `parseCpuInfo`: one line, from the current socket, core and processor. */
  method ScanLine(cpuinfo: CpuInfo, line: string, currentSocket: int, currentCore: int, currentProcessor: int)
    returns (r: Result<(int, int, int)>)
    requires Readable(line)
    modifies cpuinfo
    ensures var st := Scan(currentSocket, currentCore, currentProcessor, old(cpuinfo.processors), old(cpuinfo.sockets));
            match Step(st, line)
            case Err(e) => r == Err(e)
            case Ok(next) =>
              && r == Ok((next.socket, next.core, next.processor))
              && cpuinfo.processors == next.count && cpuinfo.sockets == next.sockets
  {
    var raw := SplitN2(line, ':');
    var parts := seq(|raw|, k requires 0 <= k < |raw| => TrimSpace(raw[k]));
    var key := parts[0];
    assert key == Key(line);
    assert |parts| == 2 ==> parts[1] == Val(line);
    var socket, core, processor := currentSocket, currentCore, currentProcessor;
    if key == "physical id" {
      var v := ParseInt16(parts[1]);
      if !v.Parsed? {
        return Err(ParseIntError(parts[1], v));
      }
      socket := v.value;
    } else if key == "core id" {
      var v := ParseInt16(parts[1]);
      if !v.Parsed? {
        return Err(ParseIntError(parts[1], v));
      }
      core := v.value;
    } else if key == "processor" {
      var v := ParseInt16(parts[1]);
      if !v.Parsed? {
        return Err(ParseIntError(parts[1], v));
      }
      processor := v.value;
      cpuinfo.processors := cpuinfo.processors + 1;
    } else if key == "" {
      RecordCurrent(cpuinfo, socket, core, processor);
    }
    return Ok((socket, core, processor));
  }

  /** The blank-line case of `parseCpuInfo`: socket, then core, then processor, each found again through `Get`. */
  method RecordCurrent(cpuinfo: CpuInfo, currentSocket: int, currentCore: int, currentProcessor: int)
    modifies cpuinfo
    ensures cpuinfo.sockets == Record(old(cpuinfo.sockets), currentSocket, currentCore, currentProcessor)
    ensures cpuinfo.processors == old(cpuinfo.processors)
  {
    cpuinfo.AddSocket(currentSocket);
    var k := GetSocket(cpuinfo.sockets, currentSocket);
    var socket := cpuinfo.sockets[k.value].AddCore(currentCore);
    var j := GetCore(socket.cores, currentCore);
    socket := socket.(cores := socket.cores[j.value := socket.cores[j.value].AddProcessor(currentProcessor)]);
    cpuinfo.sockets := cpuinfo.sockets[k.value := socket];
    RecordThroughGets(old(cpuinfo.sockets), currentSocket, currentCore, currentProcessor);
  }

  // ---------------------------------------------------------------------------
  // Properties

  /** Number of lines whose key is "processor". */
  function ProcessorLines(lines: seq<string>): nat {
    if |lines| == 0 then 0 else (if Key(lines[0]) == "processor" then 1 else 0) + ProcessorLines(lines[1..])
  }

  lemma {:induction false} ScannedCounts(lines: seq<string>, st: Scan)
    requires forall i :: 0 <= i < |lines| ==> Readable(lines[i])
    ensures Scanned(lines, st).Ok? ==> Scanned(lines, st).value.count == st.count + ProcessorLines(lines)
    decreases |lines|
  {
    if |lines| > 0 && Step(st, lines[0]).Ok? {
      ScannedCounts(lines[1..], Step(st, lines[0]).value);
    }
  }

  /** `Processors` counts the "processor" lines, whatever their values. */
  lemma CountsProcessorLines(lines: seq<string>, scanErr: Outcome)
    requires forall i :: 0 <= i < |lines| ==> Readable(lines[i])
    ensures ParsedCpuInfo(lines, scanErr).Ok? ==> ParsedCpuInfo(lines, scanErr).value.count == ProcessorLines(lines)
  {
    ScannedCounts(lines, Start);
  }

  lemma {:induction false} ScannedFails(lines: seq<string>, st: Scan)
    requires forall i :: 0 <= i < |lines| ==> Readable(lines[i])
    ensures Scanned(lines, st).Err? <==> exists i :: 0 <= i < |lines| && BadLine(lines[i])
    decreases |lines|
  {
    if |lines| > 0 {
      if BadLine(lines[0]) {
        assert Step(st, lines[0]).Err?;
      } else {
        assert Step(st, lines[0]).Ok?;
        ScannedFails(lines[1..], Step(st, lines[0]).value);
        if exists i :: 0 <= i < |lines| && BadLine(lines[i]) {
          var i :| 0 <= i < |lines| && BadLine(lines[i]);
          assert lines[1..][i - 1] == lines[i];
        }
      }
    }
  }

  /**
   * `parseCpuInfo` fails exactly when some "physical id", "core id" or
   * "processor" value is not a 16-bit decimal, or the scanner reports an
   * error.
   */
  lemma FailsOnBadValue(lines: seq<string>, scanErr: Outcome)
    requires forall i :: 0 <= i < |lines| ==> Readable(lines[i])
    ensures ParsedCpuInfo(lines, scanErr).Err? <==>
              scanErr.Fail? || exists i :: 0 <= i < |lines| && BadLine(lines[i])
  {
    ScannedFails(lines, Start);
  }

  /** Lines with any other key change nothing. */
  lemma OtherKeysIgnored(st: Scan, line: string)
    requires !Numbered(Key(line)) && Key(line) != ""
    ensures Step(st, line) == Ok(st)
  {
  }

  lemma CoresThroughGet(cs: seq<Core>, i: int, c: int, p: int)
    ensures var added := Socket(i, cs).AddCore(c).cores;
            var j := FirstPos(added, CoreIndex, c).value;
            added[j := added[j].AddProcessor(p)] == PlaceOnCores(cs, c, p)
  {
    PlaceOnCoresAt(cs, c, p);
    var added := Socket(i, cs).AddCore(c).cores;
    if FirstPos(cs, CoreIndex, c).None? {
      assert added == cs + [Core(c, [])];
      assert FirstPos(added, CoreIndex, c) == Some(|cs|);
      assert Core(c, []).AddProcessor(p) == Core(c, [p]);
    }
  }

  /** `PlaceOnCores` adds `p` to the first core `c`, or appends a core `c` holding `p`. */
  lemma {:induction false} PlaceOnCoresAt(cs: seq<Core>, c: int, p: int)
    ensures PlaceOnCores(cs, c, p) ==
              match FirstPos(cs, CoreIndex, c)
              case Some(k) => cs[k := cs[k].AddProcessor(p)]
              case None => cs + [Core(c, [p])]
    decreases |cs|
  {
    if |cs| > 0 && cs[0].index != c {
      PlaceOnCoresAt(cs[1..], c, p);
      match FirstPos(cs[1..], CoreIndex, c)
      case Some(k) =>
        UpdateBehindHead(cs[0], cs[1..], k, cs[1..][k].AddProcessor(p), cs[1..][k := cs[1..][k].AddProcessor(p)]);
        assert cs == [cs[0]] + cs[1..];
      case None =>
        assert cs + [Core(c, [p])] == [cs[0]] + (cs[1..] + [Core(c, [p])]);
    }
  }

  /** Updating behind the head of a sequence updates its tail. */
  lemma UpdateBehindHead<T>(h: T, r: seq<T>, k: int, x: T, updated: seq<T>)
    requires 0 <= k < |r| && r[k := x] == updated
    ensures ([h] + r)[k + 1] == r[k]
    ensures ([h] + r)[k + 1 := x] == [h] + updated
  {
  }

  /**
   * The recursive `Record` is what the source does: `AddSocket`, then
   * `AddCore` on the socket `Sockets.Get` finds, then `AddProcessor` on the
   * core `Cores.Get` finds.
   */
  lemma RecordThroughGets(ss: seq<Socket>, s: int, c: int, p: int)
    ensures var withSocket := WithSocket(ss, s);
            var k := FirstPos(withSocket, SocketIndex, s).value;
            var socket := withSocket[k].AddCore(c);
            var j := FirstPos(socket.cores, CoreIndex, c).value;
            withSocket[k := socket.(cores := socket.cores[j := socket.cores[j].AddProcessor(p)])] == Record(ss, s, c, p)
  {
    var withSocket := WithSocket(ss, s);
    var k := FirstPos(withSocket, SocketIndex, s).value;
    CoresThroughGet(withSocket[k].cores, withSocket[k].index, c, p);
    assert Socket(withSocket[k].index, withSocket[k].cores) == withSocket[k];
    RecordAtSocket(ss, s, c, p);
  }

  /** `Record` is `PlaceOnCores` on the first socket `s` of the sockets after `AddSocket(s)`. */
  lemma {:induction false} RecordAtSocket(ss: seq<Socket>, s: int, c: int, p: int)
    ensures var withSocket := WithSocket(ss, s);
            var k := FirstPos(withSocket, SocketIndex, s).value;
            withSocket[k := withSocket[k].(cores := PlaceOnCores(withSocket[k].cores, c, p))] == Record(ss, s, c, p)
    decreases |ss|
  {
    var withSocket := WithSocket(ss, s);
    if |ss| == 0 {
      assert withSocket == [Socket(s, [])];
    } else if ss[0].index == s {
      assert withSocket == ss;
      assert FirstPos(withSocket, SocketIndex, s) == Some(0);
    } else {
      RecordAtSocket(ss[1..], s, c, p);
      RecordAtLaterSocket(ss, s, c, p);
    }
  }

  /** The step of `RecordAtSocket` past a first socket with another index. */
  lemma RecordAtLaterSocket(ss: seq<Socket>, s: int, c: int, p: int)
    requires |ss| > 0 && ss[0].index != s
    requires var rest := WithSocket(ss[1..], s);
             var k := FirstPos(rest, SocketIndex, s).value;
             rest[k := rest[k].(cores := PlaceOnCores(rest[k].cores, c, p))] == Record(ss[1..], s, c, p)
    ensures var withSocket := WithSocket(ss, s);
            var k := FirstPos(withSocket, SocketIndex, s).value;
            withSocket[k := withSocket[k].(cores := PlaceOnCores(withSocket[k].cores, c, p))] == Record(ss, s, c, p)
  {
    AddSocketBehind(ss, s);
    var rest := WithSocket(ss[1..], s);
    var k := FirstPos(rest, SocketIndex, s).value;
    UpdateBehindHead(ss[0], rest, k, rest[k].(cores := PlaceOnCores(rest[k].cores, c, p)), Record(ss[1..], s, c, p));
  }

  /** Adding a socket behind a first socket of another index adds it to the tail, one position further on. */
  lemma AddSocketBehind(ss: seq<Socket>, s: int)
    requires |ss| > 0 && ss[0].index != s
    ensures var withSocket := WithSocket(ss, s);
            var rest := WithSocket(ss[1..], s);
            withSocket == [ss[0]] + rest && FirstPos(withSocket, SocketIndex, s) == Some(FirstPos(rest, SocketIndex, s).value + 1)
  {
    var withSocket := WithSocket(ss, s);
    var rest := WithSocket(ss[1..], s);
    assert withSocket == [ss[0]] + rest by {
      if FirstPos(ss[1..], SocketIndex, s).Some? {
        assert FirstPos(ss, SocketIndex, s).Some?;
        assert withSocket == ss && rest == ss[1..];
      } else {
        assert FirstPos(ss, SocketIndex, s).None?;
        assert withSocket == ss + [Socket(s, [])] && rest == ss[1..] + [Socket(s, [])];
      }
    }
    assert withSocket[1..] == rest;
  }

  /** `cs2` keeps every core of `cs` at its place, with at least its processors. */
  predicate CoresGrow(cs: seq<Core>, cs2: seq<Core>) {
    |cs| <= |cs2| &&
    forall j :: 0 <= j < |cs| ==>
      cs2[j].index == cs[j].index && forall q :: q in cs[j].processors ==> q in cs2[j].processors
  }

  /** `ss2` keeps every socket of `ss` at its place, with at least its cores. */
  predicate Grows(ss: seq<Socket>, ss2: seq<Socket>) {
    |ss| <= |ss2| && forall k :: 0 <= k < |ss| ==> ss2[k].index == ss[k].index && CoresGrow(ss[k].cores, ss2[k].cores)
  }

  lemma {:induction false} PlaceOnCoresGrows(cs: seq<Core>, c: int, p: int)
    ensures CoresGrow(cs, PlaceOnCores(cs, c, p))
    decreases |cs|
  {
    if |cs| > 0 {
      if cs[0].index == c {
        AddProcessorKeeps(cs[0], p);
      } else {
        PlaceOnCoresGrows(cs[1..], c, p);
      }
    }
  }

  lemma {:induction false} RecordGrows(ss: seq<Socket>, s: int, c: int, p: int)
    ensures Grows(ss, Record(ss, s, c, p))
    decreases |ss|
  {
    if |ss| > 0 {
      if ss[0].index == s {
        PlaceOnCoresGrows(ss[0].cores, c, p);
      } else {
        RecordGrows(ss[1..], s, c, p);
      }
    }
  }

  /** Recording a processor keeps every processor recorded before in its place. */
  lemma RecordKeeps(ss: seq<Socket>, s: int, c: int, p: int, s2: int, c2: int, p2: int)
    requires Placed(ss, s2, c2, p2)
    ensures Placed(Record(ss, s, c, p), s2, c2, p2)
  {
    var k, j :| 0 <= k < |ss| && 0 <= j < |ss[k].cores| &&
      ss[k].index == s2 && ss[k].cores[j].index == c2 && p2 in ss[k].cores[j].processors;
    RecordGrows(ss, s, c, p);
    var r := Record(ss, s, c, p);
    assert r[k].index == s2 && r[k].cores[j].index == c2 && p2 in r[k].cores[j].processors;
  }

  lemma {:induction false} PlaceOnCoresPlaces(cs: seq<Core>, c: int, p: int)
    ensures exists j :: 0 <= j < |PlaceOnCores(cs, c, p)| &&
              PlaceOnCores(cs, c, p)[j].index == c && p in PlaceOnCores(cs, c, p)[j].processors
    decreases |cs|
  {
    var r := PlaceOnCores(cs, c, p);
    if |cs| == 0 || cs[0].index == c {
      assert r[0].index == c && p in r[0].processors;
    } else {
      PlaceOnCoresPlaces(cs[1..], c, p);
      var j :| 0 <= j < |PlaceOnCores(cs[1..], c, p)| &&
        PlaceOnCores(cs[1..], c, p)[j].index == c && p in PlaceOnCores(cs[1..], c, p)[j].processors;
      assert r[j + 1] == PlaceOnCores(cs[1..], c, p)[j];
    }
  }

  /** After a blank line the current processor sits on the current core of the current socket. */
  lemma {:induction false} RecordPlaces(ss: seq<Socket>, s: int, c: int, p: int)
    ensures Placed(Record(ss, s, c, p), s, c, p)
    decreases |ss|
  {
    var r := Record(ss, s, c, p);
    if |ss| == 0 || ss[0].index == s {
      PlaceOnCoresPlaces(if |ss| == 0 then [] else ss[0].cores, c, p);
      var cs := r[0].cores;
      var j :| 0 <= j < |cs| && cs[j].index == c && p in cs[j].processors;
      assert r[0].index == s;
    } else {
      RecordPlaces(ss[1..], s, c, p);
      var k, j :| 0 <= k < |Record(ss[1..], s, c, p)| && 0 <= j < |Record(ss[1..], s, c, p)[k].cores| &&
        Record(ss[1..], s, c, p)[k].index == s && Record(ss[1..], s, c, p)[k].cores[j].index == c &&
        p in Record(ss[1..], s, c, p)[k].cores[j].processors;
      assert r[k + 1] == Record(ss[1..], s, c, p)[k];
    }
  }

  /** A processor on a core after `PlaceOnCores` was on a core of that index before, or is the one placed. */
  lemma {:induction false} PlaceOnCoresOnly(cs: seq<Core>, c: int, p: int, j: int, q: int)
    requires 0 <= j < |PlaceOnCores(cs, c, p)| && q in PlaceOnCores(cs, c, p)[j].processors
    ensures (PlaceOnCores(cs, c, p)[j].index == c && q == p)
            || exists i :: 0 <= i < |cs| && cs[i].index == PlaceOnCores(cs, c, p)[j].index && q in cs[i].processors
    decreases |cs|
  {
    var r := PlaceOnCores(cs, c, p);
    if |cs| > 0 {
      if cs[0].index == c {
        if j == 0 {
          assert q in cs[0].processors || q == p;
        } else {
          assert r[j] == cs[j];
        }
      } else if j == 0 {
        assert r[0] == cs[0];
      } else {
        assert r[j] == PlaceOnCores(cs[1..], c, p)[j - 1];
        PlaceOnCoresOnly(cs[1..], c, p, j - 1, q);
        if !(r[j].index == c && q == p) {
          var i :| 0 <= i < |cs[1..]| && cs[1..][i].index == r[j].index && q in cs[1..][i].processors;
          assert cs[i + 1] == cs[1..][i];
        }
      }
    }
  }

  /** A blank line places nothing but the current triple: whatever is placed after it was placed before, or is that triple. */
  lemma {:induction false} RecordOnly(ss: seq<Socket>, s: int, c: int, p: int, s2: int, c2: int, p2: int)
    requires Placed(Record(ss, s, c, p), s2, c2, p2)
    ensures Placed(ss, s2, c2, p2) || (s2 == s && c2 == c && p2 == p)
    decreases |ss|
  {
    var r := Record(ss, s, c, p);
    var k, j :| 0 <= k < |r| && 0 <= j < |r[k].cores| &&
      r[k].index == s2 && r[k].cores[j].index == c2 && p2 in r[k].cores[j].processors;
    if |ss| == 0 {
      assert r[0].cores[0] == Core(c, [p]);
    } else if ss[0].index == s {
      if k == 0 {
        PlaceOnCoresOnly(ss[0].cores, c, p, j, p2);
        if !(c2 == c && p2 == p) {
          var i :| 0 <= i < |ss[0].cores| && ss[0].cores[i].index == c2 && p2 in ss[0].cores[i].processors;
          assert ss[0].index == s2;
        }
      } else {
        assert r[k] == ss[k];
      }
    } else if k == 0 {
      assert r[0] == ss[0];
    } else {
      var rest := Record(ss[1..], s, c, p);
      assert r[k] == rest[k - 1];
      RecordOnly(ss[1..], s, c, p, s2, c2, p2);
      if Placed(ss[1..], s2, c2, p2) {
        var k', j' :| 0 <= k' < |ss[1..]| && 0 <= j' < |ss[1..][k'].cores| &&
          ss[1..][k'].index == s2 && ss[1..][k'].cores[j'].index == c2 && p2 in ss[1..][k'].cores[j'].processors;
        assert ss[k' + 1] == ss[1..][k'];
      }
    }
  }

  /** The scanner's current socket, core and processor are `s`, `c`, `p`. */
  predicate AtTriple(st: Scan, s: int, c: int, p: int) {
    st.socket == s && st.core == c && st.processor == p
  }

  /**
   * Some blank line of `lines` is reached, scanning from `st`, with the
   * current triple `s`, `c`, `p`.
   */
  ghost predicate RecordedAtBlank(lines: seq<string>, st: Scan, s: int, c: int, p: int)
    requires forall i :: 0 <= i < |lines| ==> Readable(lines[i])
  {
    exists n :: 0 <= n < |lines| && Key(lines[n]) == "" && Scanned(lines[..n], st).Ok?
                && AtTriple(Scanned(lines[..n], st).value, s, c, p)
  }

  /**
   * Every triple placed at the end of a scan was placed at its start, or
   * is the current triple at some blank line of the scan.
   */
  lemma {:induction false} ScannedOnly(lines: seq<string>, st: Scan, s: int, c: int, p: int)
    requires forall i :: 0 <= i < |lines| ==> Readable(lines[i])
    requires Scanned(lines, st).Ok? && Placed(Scanned(lines, st).value.sockets, s, c, p)
    ensures Placed(st.sockets, s, c, p) || RecordedAtBlank(lines, st, s, c, p)
    decreases |lines|
  {
    if |lines| > 0 {
      var next := ScannedHead(lines, st);
      ScannedOnly(lines[1..], next, s, c, p);
      if Placed(next.sockets, s, c, p) {
        StepSockets(st, lines[0]);
        if Key(lines[0]) == "" && !Placed(st.sockets, s, c, p) {
          RecordOnly(st.sockets, st.socket, st.core, st.processor, s, c, p);
          BlankAtHead(lines, st, s, c, p);
        }
      } else {
        BlankInTail(lines, st, s, c, p);
      }
    }
  }

  /** A blank first line at triple `s`, `c`, `p` is a blank line of the scan at that triple. */
  lemma BlankAtHead(lines: seq<string>, st: Scan, s: int, c: int, p: int)
    requires forall i :: 0 <= i < |lines| ==> Readable(lines[i])
    requires |lines| > 0 && Key(lines[0]) == "" && AtTriple(st, s, c, p)
    ensures RecordedAtBlank(lines, st, s, c, p)
  {
    assert lines[..0] == [];
    assert Scanned(lines[..0], st) == Ok(st);
  }

  /** A blank line of the scan after the first line is a blank line of the whole scan, one further on. */
  lemma BlankInTail(lines: seq<string>, st: Scan, s: int, c: int, p: int)
    requires forall i :: 0 <= i < |lines| ==> Readable(lines[i])
    requires |lines| > 0 && Step(st, lines[0]).Ok?
    requires RecordedAtBlank(lines[1..], Step(st, lines[0]).value, s, c, p)
    ensures RecordedAtBlank(lines, st, s, c, p)
  {
    var m :| 0 <= m < |lines[1..]| && Key(lines[1..][m]) == "" && Scanned(lines[1..][..m], Step(st, lines[0]).value).Ok?
             && AtTriple(Scanned(lines[1..][..m], Step(st, lines[0]).value).value, s, c, p);
    ScannedPrefixHead(lines, st, m);
    assert lines[m + 1] == lines[1..][m];
  }

  /** The blank line is the only line that changes the sockets. */
  lemma StepSockets(st: Scan, line: string)
    requires Readable(line) && Step(st, line).Ok?
    ensures Step(st, line).value.sockets ==
              if Key(line) == "" then Record(st.sockets, st.socket, st.core, st.processor) else st.sockets
  {
  }

  /** A scan that succeeds takes its first line, then scans the rest. */
  lemma ScannedHead(lines: seq<string>, st: Scan) returns (next: Scan)
    requires forall i :: 0 <= i < |lines| ==> Readable(lines[i])
    requires |lines| > 0 && Scanned(lines, st).Ok?
    ensures Step(st, lines[0]) == Ok(next) && Scanned(lines, st) == Scanned(lines[1..], next)
  {
    next := Step(st, lines[0]).value;
  }

  /** The first `m + 1` lines scan as the first line, then the next `m`. */
  lemma ScannedPrefixHead(lines: seq<string>, st: Scan, m: nat)
    requires forall i :: 0 <= i < |lines| ==> Readable(lines[i])
    requires m < |lines| && Step(st, lines[0]).Ok?
    ensures Scanned(lines[..m + 1], st) == Scanned(lines[1..][..m], Step(st, lines[0]).value)
  {
    assert lines[..m + 1][1..] == lines[1..][..m];
    assert lines[..m + 1][0] == lines[0];
  }

  /**
   * The converse of `BlankLineRecords`: every processor `parseCpuInfo`
   * places sits where some blank line recorded it, on the socket and core
   * read before that line.
   */
  lemma PlacedByBlankLine(lines: seq<string>, scanErr: Outcome, s: int, c: int, p: int)
    requires forall i :: 0 <= i < |lines| ==> Readable(lines[i])
    requires ParsedCpuInfo(lines, scanErr).Ok? && Placed(ParsedCpuInfo(lines, scanErr).value.sockets, s, c, p)
    ensures exists n :: 0 <= n < |lines| && Key(lines[n]) == "" && Scanned(lines[..n], Start).Ok?
                        && AtTriple(Scanned(lines[..n], Start).value, s, c, p)
  {
    ScannedOnly(lines, Start, s, c, p);
  }

  /** The core indices that occur in `cs`. */
  function CoreIndices(cs: seq<Core>): set<int> {
    set j | 0 <= j < |cs| :: cs[j].index
  }

  function SocketIndices(ss: seq<Socket>): set<int> {
    set k | 0 <= k < |ss| :: ss[k].index
  }

  lemma CoreIndicesCons(x: Core, cs: seq<Core>)
    ensures CoreIndices([x] + cs) == {x.index} + CoreIndices(cs)
  {
    var r := [x] + cs;
    forall v | v in CoreIndices(cs)
      ensures v in CoreIndices(r)
    {
      var j :| 0 <= j < |cs| && cs[j].index == v;
      assert r[j + 1] == cs[j];
    }
    assert r[0] == x;
  }

  lemma SocketIndicesCons(x: Socket, ss: seq<Socket>)
    ensures SocketIndices([x] + ss) == {x.index} + SocketIndices(ss)
  {
    var r := [x] + ss;
    forall v | v in SocketIndices(ss)
      ensures v in SocketIndices(r)
    {
      var k :| 0 <= k < |ss| && ss[k].index == v;
      assert r[k + 1] == ss[k];
    }
    assert r[0] == x;
  }

  predicate SoundCores(cs: seq<Core>) {
    UniqueCores(cs) && forall j :: 0 <= j < |cs| ==> NoDupBut(cs[j].processors)
  }

  lemma {:induction false} PlaceOnCoresSound(cs: seq<Core>, c: int, p: int)
    requires SoundCores(cs)
    ensures SoundCores(PlaceOnCores(cs, c, p))
    ensures CoreIndices(PlaceOnCores(cs, c, p)) == CoreIndices(cs) + {c}
    decreases |cs|
  {
    var r := PlaceOnCores(cs, c, p);
    if |cs| == 0 {
      assert r[0].index == c;
    } else if cs[0].index == c {
      ProcessorAddedOnce(cs[0], p);
      assert forall j :: 0 < j < |r| ==> r[j] == cs[j];
      assert CoreIndices(r) == CoreIndices(cs) by {
        assert forall j :: 0 <= j < |r| ==> r[j].index == cs[j].index;
      }
    } else {
      assert SoundCores(cs[1..]);
      PlaceOnCoresSound(cs[1..], c, p);
      PlaceOnLaterCoreSound(cs, c, p);
    }
  }

  /** The step of `PlaceOnCoresSound` past a first core of another index. */
  lemma PlaceOnLaterCoreSound(cs: seq<Core>, c: int, p: int)
    requires |cs| > 0 && cs[0].index != c && SoundCores(cs)
    requires SoundCores(PlaceOnCores(cs[1..], c, p))
    requires CoreIndices(PlaceOnCores(cs[1..], c, p)) == CoreIndices(cs[1..]) + {c}
    ensures SoundCores(PlaceOnCores(cs, c, p))
    ensures CoreIndices(PlaceOnCores(cs, c, p)) == CoreIndices(cs) + {c}
  {
    var rest := PlaceOnCores(cs[1..], c, p);
    assert PlaceOnCores(cs, c, p) == [cs[0]] + rest;
    assert cs[0].index !in CoreIndices(rest) by {
      assert forall j :: 0 <= j < |cs[1..]| ==> cs[1..][j].index == cs[j + 1].index;
    }
    CoreIndicesCons(cs[0], rest);
    CoreIndicesCons(cs[0], cs[1..]);
    assert cs == [cs[0]] + cs[1..];
  }

  lemma {:induction false} RecordSound(ss: seq<Socket>, s: int, c: int, p: int)
    requires Indexed(ss)
    ensures Indexed(Record(ss, s, c, p))
    ensures SocketIndices(Record(ss, s, c, p)) == SocketIndices(ss) + {s}
    decreases |ss|
  {
    var r := Record(ss, s, c, p);
    if |ss| == 0 {
      assert r[0].index == s;
    } else if ss[0].index == s {
      RecordAtFirstSound(ss, s, c, p);
    } else {
      assert Indexed(ss[1..]);
      RecordSound(ss[1..], s, c, p);
      RecordLaterSound(ss, s, c, p);
    }
  }

  /** `RecordSound` when the first socket is socket `s`. */
  lemma RecordAtFirstSound(ss: seq<Socket>, s: int, c: int, p: int)
    requires |ss| > 0 && ss[0].index == s && Indexed(ss)
    ensures Indexed(Record(ss, s, c, p))
    ensures SocketIndices(Record(ss, s, c, p)) == SocketIndices(ss) + {s}
  {
    var r := Record(ss, s, c, p);
    assert SoundCores(ss[0].cores);
    PlaceOnCoresSound(ss[0].cores, c, p);
    assert forall k :: 0 < k < |r| ==> r[k] == ss[k];
    assert SocketIndices(r) == SocketIndices(ss) by {
      assert forall k :: 0 <= k < |r| ==> r[k].index == ss[k].index;
    }
  }

  /** The step of `RecordSound` past a first socket of another index. */
  lemma RecordLaterSound(ss: seq<Socket>, s: int, c: int, p: int)
    requires |ss| > 0 && ss[0].index != s && Indexed(ss)
    requires Indexed(Record(ss[1..], s, c, p))
    requires SocketIndices(Record(ss[1..], s, c, p)) == SocketIndices(ss[1..]) + {s}
    ensures Indexed(Record(ss, s, c, p))
    ensures SocketIndices(Record(ss, s, c, p)) == SocketIndices(ss) + {s}
  {
    var rest := Record(ss[1..], s, c, p);
    assert Record(ss, s, c, p) == [ss[0]] + rest;
    assert ss[0].index !in SocketIndices(rest) by {
      assert forall k :: 0 <= k < |ss[1..]| ==> ss[1..][k].index == ss[k + 1].index;
    }
    SocketIndicesCons(ss[0], rest);
    SocketIndicesCons(ss[0], ss[1..]);
    assert ss == [ss[0]] + ss[1..];
  }

  /** Recording never doubles a socket index, a core index within a socket, or a processor within a core. */
  lemma RecordIndexed(ss: seq<Socket>, s: int, c: int, p: int)
    requires Indexed(ss)
    ensures Indexed(Record(ss, s, c, p))
  {
    RecordSound(ss, s, c, p);
  }

  lemma StepIndexed(st: Scan, line: string)
    requires Readable(line) && Indexed(st.sockets)
    ensures Step(st, line).Ok? ==> Indexed(Step(st, line).value.sockets)
  {
    if Key(line) == "" {
      RecordIndexed(st.sockets, st.socket, st.core, st.processor);
    }
  }

  lemma {:induction false} ScannedIndexed(lines: seq<string>, st: Scan)
    requires forall i :: 0 <= i < |lines| ==> Readable(lines[i])
    requires Indexed(st.sockets)
    ensures Scanned(lines, st).Ok? ==> Indexed(Scanned(lines, st).value.sockets)
    decreases |lines|
  {
    if |lines| > 0 && Step(st, lines[0]).Ok? {
      StepIndexed(st, lines[0]);
      ScannedIndexed(lines[1..], Step(st, lines[0]).value);
    }
  }

  /** A parsed topology names each socket once, each core once per socket, and each processor (bar -1) once per core. */
  lemma ParsedIsIndexed(lines: seq<string>, scanErr: Outcome)
    requires forall i :: 0 <= i < |lines| ==> Readable(lines[i])
    ensures ParsedCpuInfo(lines, scanErr).Ok? ==> Indexed(ParsedCpuInfo(lines, scanErr).value.sockets)
  {
    ScannedIndexed(lines, Start);
  }

  lemma {:induction false} ScannedKeeps(lines: seq<string>, st: Scan, s: int, c: int, p: int)
    requires forall i :: 0 <= i < |lines| ==> Readable(lines[i])
    requires Placed(st.sockets, s, c, p)
    ensures Scanned(lines, st).Ok? ==> Placed(Scanned(lines, st).value.sockets, s, c, p)
    decreases |lines|
  {
    if |lines| > 0 && Step(st, lines[0]).Ok? {
      if Key(lines[0]) == "" {
        RecordKeeps(st.sockets, st.socket, st.core, st.processor, s, c, p);
      }
      ScannedKeeps(lines[1..], Step(st, lines[0]).value, s, c, p);
    }
  }

  /**
   * A blank line records the socket, core and processor read before it,
   * and the record survives the rest of the scan.
   */
  lemma BlankLineRecords(lines: seq<string>, n: nat, scanErr: Outcome)
    requires forall i :: 0 <= i < |lines| ==> Readable(lines[i])
    requires n < |lines| && Key(lines[n]) == ""
    requires Scanned(lines[..n], Start).Ok?
    ensures var before := Scanned(lines[..n], Start).value;
            ParsedCpuInfo(lines, scanErr).Ok? ==>
              Placed(ParsedCpuInfo(lines, scanErr).value.sockets, before.socket, before.core, before.processor)
  {
    var before := Scanned(lines[..n], Start).value;
    ScannedSplit(lines, n, Start);
    var after := Step(before, lines[n]).value;
    RecordPlaces(before.sockets, before.socket, before.core, before.processor);
    ScannedKeeps(lines[n + 1..], after, before.socket, before.core, before.processor);
  }

  /** Scanning runs line by line: the lines up to `n`, then line `n`, then the rest. */
  lemma {:induction false} ScannedSplit(lines: seq<string>, n: nat, st: Scan)
    requires forall i :: 0 <= i < |lines| ==> Readable(lines[i])
    requires n < |lines| && Scanned(lines[..n], st).Ok?
    ensures Step(Scanned(lines[..n], st).value, lines[n]).Ok? ==>
              Scanned(lines, st) == Scanned(lines[n + 1..], Step(Scanned(lines[..n], st).value, lines[n]).value)
    ensures Step(Scanned(lines[..n], st).value, lines[n]).Err? ==> Scanned(lines, st).Err?
    decreases n
  {
    if n == 0 {
      assert lines[1..] == lines[n + 1..];
    } else {
      assert lines[..n][1..] == lines[1..][..n - 1];
      assert lines[1..][n - 1..][1..] == lines[n + 1..];
      ScannedSplit(lines[1..], n - 1, Step(st, lines[0]).value);
    }
  }
}
