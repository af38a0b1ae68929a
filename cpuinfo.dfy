/**
 * CPU topology of the host (vendor/github.com/docker/docker/pkg/system/cpuinfo.go):
 * sockets holding cores holding logical processors, with insertion that
 * adds an index only once and queries for two processors that share a
 * socket or a core.
 *
 * A `Socket` and a `Core` are values here. The Go code reaches them
 * through `*Socket` and `*Core` references; a reference into a slice is
 * modelled by its position, and an update through it by writing the new
 * value back at that position.
 */
module SystemCpu {
  import opened Wrappers

  /** A core: its index and the logical processors on it. */
  datatype Core = Core(index: int, processors: seq<int>)
  {
    /**
     * `Core.AddProcessor`: append `idx` unless `Processors.Get` finds it.
     * `Get` answers -1 both for "absent" and for a present -1, so -1 is
     * appended again every time.
     */
    function AddProcessor(idx: int): (c: Core)
      ensures c.index == index && idx in c.processors
    {
      if idx in processors && idx != -1 then this else Core(index, processors + [idx])
    }
  }

  /** Adding a processor keeps every processor the core had, and adds no other. */
  lemma AddProcessorKeeps(c: Core, idx: int)
    ensures forall q :: q in c.AddProcessor(idx).processors <==> q in c.processors || q == idx
  {
  }

  /** A socket (a "physical id"): its index and its cores. */
  datatype Socket = Socket(index: int, cores: seq<Core>)
  {
    /** `Socket.AddCore`: append an empty core `idx` unless `Cores.Get` finds one. */
    function AddCore(idx: int): (s: Socket)
      ensures s.index == index && FirstPos(s.cores, CoreIndex, idx).Some?
      ensures |s.cores| >= |cores| && s.cores[..|cores|] == cores
    {
      if FirstPos(cores, CoreIndex, idx).Some? then this
      else
        var s := Socket(index, cores + [Core(idx, [])]);
        assert s.cores[|cores|].index == idx;
        s
    }
  }

  // ---------------------------------------------------------------------------
  // Lookups

  /** The index `Cores.Get` looks a core up by. */
  function CoreIndex(c: Core): int { c.index }

  /** The index `Sockets.Get` looks a socket up by. */
  function SocketIndex(s: Socket): int { s.index }

  /**
   * The position of the first element whose key is `idx`, or none: what
   * `Cores.Get` (key `CoreIndex`) and `Sockets.Get` (key `SocketIndex`)
   * point at.
   */
  function FirstPos<T>(xs: seq<T>, key: T -> int, idx: int): (r: Option<nat>)
    ensures r.Some? ==> r.value < |xs| && key(xs[r.value]) == idx && forall j :: 0 <= j < r.value ==> key(xs[j]) != idx
    ensures r.None? ==> forall j :: 0 <= j < |xs| ==> key(xs[j]) != idx
  {
    if |xs| == 0 then None
    else if key(xs[0]) == idx then Some(0)
    else
      match FirstPos(xs[1..], key, idx)
      case None => None
      case Some(k) => Some(k + 1)
  }

  /** `Processors.Get`: `idx` when it is among the processors, else -1. */
  method GetProcessor(p: seq<int>, idx: int) returns (r: int)
    ensures idx in p ==> r == idx
    ensures idx !in p ==> r == -1
  {
    for i := 0 to |p|
      invariant idx !in p[..i]
    {
      if p[i] == idx {
        return idx;
      }
    }
    assert p[..|p|] == p;
    return -1;
  }

  /** `Sockets.Get`: the first socket with index `idx`, or none. */
  method GetSocket(ss: seq<Socket>, idx: int) returns (r: Option<nat>)
    ensures r == FirstPos(ss, SocketIndex, idx)
  {
    for i := 0 to |ss|
      invariant forall j :: 0 <= j < i ==> ss[j].index != idx
    {
      if ss[i].index == idx {
        return Some(i);
      }
    }
    return None;
  }

  /** `Cores.Get`: the first core with index `idx`, or none. */
  method GetCore(cs: seq<Core>, idx: int) returns (r: Option<nat>)
    ensures r == FirstPos(cs, CoreIndex, idx)
  {
    for i := 0 to |cs|
      invariant forall j :: 0 <= j < i ==> cs[j].index != idx
    {
      if cs[i].index == idx {
        return Some(i);
      }
    }
    return None;
  }

  // ---------------------------------------------------------------------------
  // Processors.Remove

  /** The processors of `p` that `l` does not remove, in order; -1 is never removed, since `Get` cannot report it. */
  function Without(p: seq<int>, l: seq<int>): seq<int> {
    if |p| == 0 then []
    else
      var last := p[|p| - 1];
      Without(p[..|p| - 1], l) + (if last in l && last != -1 then [] else [last])
  }

  /** `Processors.Remove`: a new slice; `p` is a value and stays as it was. */
  method RemoveProcessors(p: seq<int>, l: seq<int>) returns (rest: seq<int>)
    ensures rest == Without(p, l)
  {
    rest := [];
    for i := 0 to |p|
      invariant rest == Without(p[..i], l)
    {
      assert p[..i + 1][..i] == p[..i];
      var found := GetProcessor(l, p[i]);
      if found == -1 {
        rest := rest + [p[i]];
      }
    }
    assert p[..|p|] == p;
  }

  /** What is left is exactly the processors of `p` that `l` does not name (and -1 wherever it occurs). */
  lemma {:induction false} WithoutMembers(p: seq<int>, l: seq<int>)
    ensures forall q :: q in Without(p, l) <==> q in p && (q !in l || q == -1)
  {
    if |p| > 0 {
      WithoutMembers(p[..|p| - 1], l);
      assert p == p[..|p| - 1] + [p[|p| - 1]];
    }
  }

  /** Order is kept: removing from two runs of processors is removing from each, one after the other. */
  lemma {:induction false} WithoutAppend(p: seq<int>, q: seq<int>, l: seq<int>)
    ensures Without(p + q, l) == Without(p, l) + Without(q, l)
    decreases |q|
  {
    if |q| == 0 {
      assert p + q == p;
    } else {
      assert (p + q)[..|p + q| - 1] == p + q[..|q| - 1];
      WithoutAppend(p, q[..|q| - 1], l);
    }
  }

  /** Removing nothing gives every processor back, in order. */
  lemma {:induction false} WithoutNothing(p: seq<int>)
    ensures Without(p, []) == p
  {
    if |p| > 0 {
      WithoutNothing(p[..|p| - 1]);
    }
  }

  // ---------------------------------------------------------------------------
  // CpuInfo

  /** `CpuInfo`: the number of logical processors and the sockets. */
  class CpuInfo {
    var processors: int
    var sockets: seq<Socket>

    constructor ()
      ensures processors == 0 && sockets == []
    {
      processors := 0;
      sockets := [];
    }

    /** `AddSocket`: append an empty socket `idx` unless `Sockets.Get` finds one. */
    method AddSocket(idx: int)
      modifies this
      ensures sockets == WithSocket(old(sockets), idx)
      ensures processors == old(processors)
    {
      var found := GetSocket(sockets, idx);
      if found.Some? {
        return;
      }
      sockets := sockets + [Socket(idx, [])];
    }

    /** `IsProcessorInSameSocket`. */
    method IsProcessorInSameSocket(x: int, y: int) returns (b: bool)
      ensures b == SameSocket(sockets, x, y)
    {
      var xSock, ySock := -1, -1;
      for i := 0 to |sockets|
        invariant SockSockets(sockets, x, y, Sock(-1, -1)) == SockSockets(sockets[i..], x, y, Sock(xSock, ySock))
      {
        var socket := sockets[i];
        ghost var atSocket := Sock(xSock, ySock);
        for j := 0 to |socket.cores|
          invariant SockCores(socket.cores, x, y, socket.index, atSocket)
                    == SockCores(socket.cores[j..], x, y, socket.index, Sock(xSock, ySock))
        {
          var core := socket.cores[j];
          ghost var atCore := Sock(xSock, ySock);
          for k := 0 to |core.processors|
            invariant SockProcs(core.processors, x, y, socket.index, atCore)
                      == SockProcs(core.processors[k..], x, y, socket.index, Sock(xSock, ySock))
          {
            var processor := core.processors[k];
            if processor == x {
              xSock := socket.index;
            } else if processor == y {
              ySock := socket.index;
            }
            if xSock != -1 && ySock != -1 {
              break;
            }
          }
          assert SockProcs(core.processors, x, y, socket.index, atCore) == Sock(xSock, ySock);
        }
        assert SockCores(socket.cores, x, y, socket.index, atSocket) == Sock(xSock, ySock);
      }
      return xSock != -1 && xSock == ySock;
    }

    /** `IsProcessorInSameCore`. */
    method IsProcessorInSameCore(x: int, y: int) returns (b: bool)
      ensures b == SameCore(sockets, x, y)
    {
      var xCore, xSock, yCore, ySock := -1, -1, -1, -1;
      for i := 0 to |sockets|
        invariant CoreSockets(sockets, x, y, Place(-1, -1, -1, -1))
                  == CoreSockets(sockets[i..], x, y, Place(xCore, xSock, yCore, ySock))
      {
        var socket := sockets[i];
        ghost var atSocket := Place(xCore, xSock, yCore, ySock);
        for j := 0 to |socket.cores|
          invariant CoreCores(socket.cores, x, y, socket.index, atSocket)
                    == CoreCores(socket.cores[j..], x, y, socket.index, Place(xCore, xSock, yCore, ySock))
        {
          var core := socket.cores[j];
          ghost var atCore := Place(xCore, xSock, yCore, ySock);
          for k := 0 to |core.processors|
            invariant CoreProcs(core.processors, x, y, socket.index, core.index, atCore)
                      == CoreProcs(core.processors[k..], x, y, socket.index, core.index, Place(xCore, xSock, yCore, ySock))
          {
            var processor := core.processors[k];
            if processor == x {
              xCore := core.index;
              xSock := socket.index;
            } else if processor == y {
              yCore := core.index;
              ySock := socket.index;
            }
            if xCore != -1 && yCore != -1 {
              break;
            }
          }
          assert CoreProcs(core.processors, x, y, socket.index, core.index, atCore) == Place(xCore, xSock, yCore, ySock);
        }
        assert CoreCores(socket.cores, x, y, socket.index, atSocket) == Place(xCore, xSock, yCore, ySock);
      }
      return xCore != -1 && xCore == yCore && xSock == ySock;
    }
  }

  /** The sockets after `AddSocket(idx)`. */
  function WithSocket(ss: seq<Socket>, idx: int): (r: seq<Socket>)
    ensures FirstPos(r, SocketIndex, idx).Some?
    ensures |r| >= |ss| && r[..|ss|] == ss
  {
    if FirstPos(ss, SocketIndex, idx).Some? then ss
    else
      var r := ss + [Socket(idx, [])];
      assert r[|ss|].index == idx;
      r
  }

  // ---------------------------------------------------------------------------
  // The scans of the two queries, as written

  /** `xSock`, `ySock` of `IsProcessorInSameSocket`. */
  datatype Sock = Sock(x: int, y: int)

  /** One processor: `case x` is tried before `case y`. */
  function SockStep(st: Sock, processor: int, x: int, y: int, socketIndex: int): Sock {
    if processor == x then st.(x := socketIndex)
    else if processor == y then st.(y := socketIndex)
    else st
  }

  /** The processors of one core, stopping after the first one that leaves both sockets known. */
  function SockProcs(ps: seq<int>, x: int, y: int, socketIndex: int, st: Sock): Sock
    decreases |ps|
  {
    if |ps| == 0 then st
    else
      var next := SockStep(st, ps[0], x, y, socketIndex);
      if next.x != -1 && next.y != -1 then next else SockProcs(ps[1..], x, y, socketIndex, next)
  }

  function SockCores(cs: seq<Core>, x: int, y: int, socketIndex: int, st: Sock): Sock
    decreases |cs|
  {
    if |cs| == 0 then st else SockCores(cs[1..], x, y, socketIndex, SockProcs(cs[0].processors, x, y, socketIndex, st))
  }

  function SockSockets(ss: seq<Socket>, x: int, y: int, st: Sock): Sock
    decreases |ss|
  {
    if |ss| == 0 then st else SockSockets(ss[1..], x, y, SockCores(ss[0].cores, x, y, ss[0].index, st))
  }

  predicate SameSocket(ss: seq<Socket>, x: int, y: int) {
    var r := SockSockets(ss, x, y, Sock(-1, -1));
    r.x != -1 && r.x == r.y
  }

  /** `xCore`, `xSock`, `yCore`, `ySock` of `IsProcessorInSameCore`. */
  datatype Place = Place(xCore: int, xSock: int, yCore: int, ySock: int)

  function PlaceStep(st: Place, processor: int, x: int, y: int, socketIndex: int, coreIndex: int): Place {
    if processor == x then st.(xCore := coreIndex, xSock := socketIndex)
    else if processor == y then st.(yCore := coreIndex, ySock := socketIndex)
    else st
  }

  /** The processors of one core, stopping after the first one that leaves both cores known. */
  function CoreProcs(ps: seq<int>, x: int, y: int, socketIndex: int, coreIndex: int, st: Place): Place
    decreases |ps|
  {
    if |ps| == 0 then st
    else
      var next := PlaceStep(st, ps[0], x, y, socketIndex, coreIndex);
      if next.xCore != -1 && next.yCore != -1 then next else CoreProcs(ps[1..], x, y, socketIndex, coreIndex, next)
  }

  function CoreCores(cs: seq<Core>, x: int, y: int, socketIndex: int, st: Place): Place
    decreases |cs|
  {
    if |cs| == 0 then st
    else CoreCores(cs[1..], x, y, socketIndex, CoreProcs(cs[0].processors, x, y, socketIndex, cs[0].index, st))
  }

  function CoreSockets(ss: seq<Socket>, x: int, y: int, st: Place): Place
    decreases |ss|
  {
    if |ss| == 0 then st else CoreSockets(ss[1..], x, y, CoreCores(ss[0].cores, x, y, ss[0].index, st))
  }

  predicate SameCore(ss: seq<Socket>, x: int, y: int) {
    var r := CoreSockets(ss, x, y, Place(-1, -1, -1, -1));
    r.xCore != -1 && r.xCore == r.yCore && r.xSock == r.ySock
  }

  // ---------------------------------------------------------------------------
  // What the queries mean

  /** All processors, socket by socket and core by core. */
  function FlatCores(cs: seq<Core>): seq<int> {
    if |cs| == 0 then [] else cs[0].processors + FlatCores(cs[1..])
  }

  function Flat(ss: seq<Socket>): seq<int> {
    if |ss| == 0 then [] else FlatCores(ss[0].cores) + Flat(ss[1..])
  }

  predicate NoDup(s: seq<int>) {
    forall i, j :: 0 <= i < j < |s| ==> s[i] != s[j]
  }

  /** A topology as the host reports it: non-negative indices, every processor listed once. */
  predicate WellFormed(ss: seq<Socket>) {
    && (forall i :: 0 <= i < |ss| ==> ss[i].index >= 0)
    && (forall i, j :: 0 <= i < |ss| && 0 <= j < |ss[i].cores| ==> ss[i].cores[j].index >= 0)
    && NoDup(Flat(ss))
  }

  /** The socket holding processor `x`, or -1. */
  function SocketOf(ss: seq<Socket>, x: int): int {
    if |ss| == 0 then -1 else if x in FlatCores(ss[0].cores) then ss[0].index else SocketOf(ss[1..], x)
  }

  /** The core holding processor `x` among `cs`, or -1. */
  function CoreIn(cs: seq<Core>, x: int): int {
    if |cs| == 0 then -1 else if x in cs[0].processors then cs[0].index else CoreIn(cs[1..], x)
  }

  /** The core holding processor `x`, or -1. */
  function CoreOf(ss: seq<Socket>, x: int): int {
    if |ss| == 0 then -1 else if x in FlatCores(ss[0].cores) then CoreIn(ss[0].cores, x) else CoreOf(ss[1..], x)
  }

  lemma NoDupAppend(a: seq<int>, b: seq<int>)
    requires NoDup(a + b)
    ensures NoDup(a) && NoDup(b) && forall v :: v in a ==> v !in b
  {
    forall i, j | 0 <= i < |a| && 0 <= j < |b|
      ensures a[i] != b[j]
    {
      assert (a + b)[i] == a[i] && (a + b)[|a| + j] == b[j];
    }
    forall i, j | 0 <= i < j < |a|
      ensures a[i] != a[j]
    {
      assert (a + b)[i] == a[i] && (a + b)[j] == a[j];
    }
    forall i, j | 0 <= i < j < |b|
      ensures b[i] != b[j]
    {
      assert (a + b)[|a| + i] == b[i] && (a + b)[|a| + j] == b[j];
    }
  }

  /** Within one core, with neither processor met twice, the scan records the socket of each one it meets. */
  lemma {:induction false} SockProcsFinds(ps: seq<int>, x: int, y: int, si: int, st: Sock)
    requires NoDup(ps) && si >= 0
    requires st.x != -1 ==> x !in ps
    requires st.y != -1 ==> y !in ps
    ensures SockProcs(ps, x, y, si, st)
            == Sock(if x in ps then si else st.x, if y in ps && y != x then si else st.y)
    decreases |ps|
  {
    if |ps| > 0 {
      var next := SockStep(st, ps[0], x, y, si);
      assert ps == [ps[0]] + ps[1..];
      NoDupAppend([ps[0]], ps[1..]);
      if !(next.x != -1 && next.y != -1) {
        SockProcsFinds(ps[1..], x, y, si, next);
      }
    }
  }

  lemma {:induction false} SockCoresFinds(cs: seq<Core>, x: int, y: int, si: int, st: Sock)
    requires NoDup(FlatCores(cs)) && si >= 0
    requires st.x != -1 ==> x !in FlatCores(cs)
    requires st.y != -1 ==> y !in FlatCores(cs)
    ensures SockCores(cs, x, y, si, st)
            == Sock(if x in FlatCores(cs) then si else st.x, if y in FlatCores(cs) && y != x then si else st.y)
    decreases |cs|
  {
    if |cs| > 0 {
      NoDupAppend(cs[0].processors, FlatCores(cs[1..]));
      SockProcsFinds(cs[0].processors, x, y, si, st);
      SockCoresFinds(cs[1..], x, y, si, SockProcs(cs[0].processors, x, y, si, st));
    }
  }

  lemma {:induction false} SockSocketsFinds(ss: seq<Socket>, x: int, y: int, st: Sock)
    requires WellFormed(ss)
    requires st.x != -1 ==> x !in Flat(ss)
    requires st.y != -1 ==> y !in Flat(ss)
    ensures SockSockets(ss, x, y, st)
            == Sock(if x in Flat(ss) then SocketOf(ss, x) else st.x,
                    if y in Flat(ss) && y != x then SocketOf(ss, y) else st.y)
    decreases |ss|
  {
    if |ss| > 0 {
      NoDupAppend(FlatCores(ss[0].cores), Flat(ss[1..]));
      assert ss[0].index >= 0;
      SockCoresFinds(ss[0].cores, x, y, ss[0].index, st);
      assert WellFormed(ss[1..]) by {
        forall i, j | 0 <= i < |ss[1..]| && 0 <= j < |ss[1..][i].cores|
          ensures ss[1..][i].cores[j].index >= 0
        {
          assert ss[1..][i] == ss[i + 1];
        }
      }
      SockSocketsFinds(ss[1..], x, y, SockCores(ss[0].cores, x, y, ss[0].index, st));
    }
  }

  lemma {:induction false} SocketOfAbsent(ss: seq<Socket>, x: int)
    requires x !in Flat(ss)
    ensures SocketOf(ss, x) == -1
  {
    if |ss| > 0 {
      SocketOfAbsent(ss[1..], x);
    }
  }

  /**
   * On a well-formed topology, `IsProcessorInSameSocket(x, y)` holds exactly
   * when `x` is present, `y` is a different processor, and both sit on the
   * same socket.
   */
  lemma SameSocketMeaning(ss: seq<Socket>, x: int, y: int)
    requires WellFormed(ss)
    ensures SameSocket(ss, x, y) <==> x != y && SocketOf(ss, x) != -1 && SocketOf(ss, x) == SocketOf(ss, y)
  {
    SockSocketsFinds(ss, x, y, Sock(-1, -1));
    if x !in Flat(ss) {
      SocketOfAbsent(ss, x);
    }
    if y !in Flat(ss) {
      SocketOfAbsent(ss, y);
    }
  }

  /** Within one core, with neither processor met twice, the scan records the place of each one it meets. */
  lemma {:induction false} CoreProcsFinds(ps: seq<int>, x: int, y: int, si: int, ci: int, st: Place)
    requires NoDup(ps) && ci >= 0
    requires st.xCore != -1 ==> x !in ps
    requires st.yCore != -1 ==> y !in ps
    ensures CoreProcs(ps, x, y, si, ci, st)
            == (var (xc, xs) := if x in ps then (ci, si) else (st.xCore, st.xSock);
                var (yc, ys) := if y in ps && y != x then (ci, si) else (st.yCore, st.ySock);
                Place(xc, xs, yc, ys))
    decreases |ps|
  {
    if |ps| > 0 {
      var next := PlaceStep(st, ps[0], x, y, si, ci);
      assert ps == [ps[0]] + ps[1..];
      NoDupAppend([ps[0]], ps[1..]);
      if !(next.xCore != -1 && next.yCore != -1) {
        CoreProcsFinds(ps[1..], x, y, si, ci, next);
      }
    }
  }

  lemma {:induction false} CoreCoresFinds(cs: seq<Core>, x: int, y: int, si: int, st: Place)
    requires NoDup(FlatCores(cs))
    requires forall j :: 0 <= j < |cs| ==> cs[j].index >= 0
    requires st.xCore != -1 ==> x !in FlatCores(cs)
    requires st.yCore != -1 ==> y !in FlatCores(cs)
    ensures CoreCores(cs, x, y, si, st)
            == (var (xc, xs) := if x in FlatCores(cs) then (CoreIn(cs, x), si) else (st.xCore, st.xSock);
                var (yc, ys) := if y in FlatCores(cs) && y != x then (CoreIn(cs, y), si) else (st.yCore, st.ySock);
                Place(xc, xs, yc, ys))
    decreases |cs|
  {
    if |cs| > 0 {
      NoDupAppend(cs[0].processors, FlatCores(cs[1..]));
      CoreProcsFinds(cs[0].processors, x, y, si, cs[0].index, st);
      CoreCoresFinds(cs[1..], x, y, si, CoreProcs(cs[0].processors, x, y, si, cs[0].index, st));
    }
  }

  lemma {:induction false} CoreSocketsFinds(ss: seq<Socket>, x: int, y: int, st: Place)
    requires WellFormed(ss)
    requires st.xCore != -1 ==> x !in Flat(ss)
    requires st.yCore != -1 ==> y !in Flat(ss)
    ensures CoreSockets(ss, x, y, st)
            == (var (xc, xs) := if x in Flat(ss) then (CoreOf(ss, x), SocketOf(ss, x)) else (st.xCore, st.xSock);
                var (yc, ys) := if y in Flat(ss) && y != x then (CoreOf(ss, y), SocketOf(ss, y)) else (st.yCore, st.ySock);
                Place(xc, xs, yc, ys))
    decreases |ss|
  {
    if |ss| > 0 {
      NoDupAppend(FlatCores(ss[0].cores), Flat(ss[1..]));
      assert forall j :: 0 <= j < |ss[0].cores| ==> ss[0].cores[j].index >= 0;
      CoreCoresFinds(ss[0].cores, x, y, ss[0].index, st);
      assert WellFormed(ss[1..]) by {
        forall i, j | 0 <= i < |ss[1..]| && 0 <= j < |ss[1..][i].cores|
          ensures ss[1..][i].cores[j].index >= 0
        {
          assert ss[1..][i] == ss[i + 1];
        }
      }
      CoreSocketsFinds(ss[1..], x, y, CoreCores(ss[0].cores, x, y, ss[0].index, st));
    }
  }

  lemma {:induction false} CoreInPresent(cs: seq<Core>, x: int)
    requires x in FlatCores(cs) && forall j :: 0 <= j < |cs| ==> cs[j].index >= 0
    ensures CoreIn(cs, x) >= 0
  {
    if x !in cs[0].processors {
      CoreInPresent(cs[1..], x);
    }
  }

  lemma {:induction false} CoreOfPlaces(ss: seq<Socket>, x: int)
    requires WellFormed(ss)
    ensures x in Flat(ss) ==> CoreOf(ss, x) >= 0 && SocketOf(ss, x) >= 0
    ensures x !in Flat(ss) ==> CoreOf(ss, x) == -1 && SocketOf(ss, x) == -1
  {
    if |ss| > 0 {
      if x in FlatCores(ss[0].cores) {
        CoreInPresent(ss[0].cores, x);
      } else {
        assert WellFormed(ss[1..]) by {
          forall i, j | 0 <= i < |ss[1..]| && 0 <= j < |ss[1..][i].cores|
            ensures ss[1..][i].cores[j].index >= 0
          {
            assert ss[1..][i] == ss[i + 1];
          }
          NoDupAppend(FlatCores(ss[0].cores), Flat(ss[1..]));
        }
        CoreOfPlaces(ss[1..], x);
      }
    }
  }

  /**
   * On a well-formed topology, `IsProcessorInSameCore(x, y)` holds exactly
   * when `x` is present, `y` is a different processor, and both sit on the
   * same core index of the same socket.
   */
  lemma SameCoreMeaning(ss: seq<Socket>, x: int, y: int)
    requires WellFormed(ss)
    ensures SameCore(ss, x, y) <==>
              x != y && CoreOf(ss, x) != -1 && CoreOf(ss, x) == CoreOf(ss, y) && SocketOf(ss, x) == SocketOf(ss, y)
  {
    CoreSocketsFinds(ss, x, y, Place(-1, -1, -1, -1));
    CoreOfPlaces(ss, x);
    CoreOfPlaces(ss, y);
  }

  // ---------------------------------------------------------------------------
  // A processor is never in the same socket or core as itself

  lemma {:induction false} SockProcsSelf(ps: seq<int>, x: int, si: int, st: Sock)
    requires st.y == -1
    ensures SockProcs(ps, x, x, si, st).y == -1
    decreases |ps|
  {
    if |ps| > 0 {
      SockProcsSelf(ps[1..], x, si, SockStep(st, ps[0], x, x, si));
    }
  }

  lemma {:induction false} SockCoresSelf(cs: seq<Core>, x: int, si: int, st: Sock)
    requires st.y == -1
    ensures SockCores(cs, x, x, si, st).y == -1
    decreases |cs|
  {
    if |cs| > 0 {
      SockProcsSelf(cs[0].processors, x, si, st);
      SockCoresSelf(cs[1..], x, si, SockProcs(cs[0].processors, x, x, si, st));
    }
  }

  lemma {:induction false} SockSocketsSelf(ss: seq<Socket>, x: int, st: Sock)
    requires st.y == -1
    ensures SockSockets(ss, x, x, st).y == -1
    decreases |ss|
  {
    if |ss| > 0 {
      SockCoresSelf(ss[0].cores, x, ss[0].index, st);
      SockSocketsSelf(ss[1..], x, SockCores(ss[0].cores, x, x, ss[0].index, st));
    }
  }

  lemma {:induction false} CoreProcsSelf(ps: seq<int>, x: int, si: int, ci: int, st: Place)
    requires st.yCore == -1
    ensures CoreProcs(ps, x, x, si, ci, st).yCore == -1
    decreases |ps|
  {
    if |ps| > 0 {
      CoreProcsSelf(ps[1..], x, si, ci, PlaceStep(st, ps[0], x, x, si, ci));
    }
  }

  lemma {:induction false} CoreCoresSelf(cs: seq<Core>, x: int, si: int, st: Place)
    requires st.yCore == -1
    ensures CoreCores(cs, x, x, si, st).yCore == -1
    decreases |cs|
  {
    if |cs| > 0 {
      CoreProcsSelf(cs[0].processors, x, si, cs[0].index, st);
      CoreCoresSelf(cs[1..], x, si, CoreProcs(cs[0].processors, x, x, si, cs[0].index, st));
    }
  }

  lemma {:induction false} CoreSocketsSelf(ss: seq<Socket>, x: int, st: Place)
    requires st.yCore == -1
    ensures CoreSockets(ss, x, x, st).yCore == -1
    decreases |ss|
  {
    if |ss| > 0 {
      CoreCoresSelf(ss[0].cores, x, ss[0].index, st);
      CoreSocketsSelf(ss[1..], x, CoreCores(ss[0].cores, x, x, ss[0].index, st));
    }
  }

  /**
   * Asked about a processor and itself, both queries answer false on any
   * topology: only `case x` fires, so the `y` side is never recorded.
   */
  lemma NeverSameAsItself(ss: seq<Socket>, x: int)
    ensures !SameSocket(ss, x, x)
    ensures !SameCore(ss, x, x)
  {
    SockSocketsSelf(ss, x, Sock(-1, -1));
    CoreSocketsSelf(ss, x, Place(-1, -1, -1, -1));
  }

  // ---------------------------------------------------------------------------
  // Insertion keeps indices unique

  predicate UniqueCores(cs: seq<Core>) {
    forall i, j :: 0 <= i < j < |cs| ==> cs[i].index != cs[j].index
  }

  /** No socket index twice, no core index twice in a socket, no processor twice in a core (bar -1). */
  predicate Indexed(ss: seq<Socket>) {
    && (forall i, j :: 0 <= i < j < |ss| ==> ss[i].index != ss[j].index)
    && (forall i :: 0 <= i < |ss| ==> UniqueCores(ss[i].cores))
    && (forall i, k :: 0 <= i < |ss| && 0 <= k < |ss[i].cores| ==> NoDupBut(ss[i].cores[k].processors))
  }

  predicate NoDupBut(p: seq<int>) {
    forall i, j :: 0 <= i < j < |p| && p[i] != -1 ==> p[i] != p[j]
  }

  /** Adding a processor twice is adding it once (bar -1), and no processor other than -1 is ever doubled. */
  lemma ProcessorAddedOnce(c: Core, idx: int)
    ensures idx != -1 ==> c.AddProcessor(idx).AddProcessor(idx) == c.AddProcessor(idx)
    ensures NoDupBut(c.processors) ==> NoDupBut(c.AddProcessor(idx).processors)
  {
  }

  /** Adding a core twice is adding it once, and no core index is ever doubled. */
  lemma CoreAddedOnce(s: Socket, idx: int)
    ensures s.AddCore(idx).AddCore(idx) == s.AddCore(idx)
    ensures UniqueCores(s.cores) ==> UniqueCores(s.AddCore(idx).cores)
  {
  }

  /** Adding a socket twice is adding it once, and no socket index is ever doubled. */
  lemma SocketAddedOnce(ss: seq<Socket>, idx: int)
    ensures WithSocket(WithSocket(ss, idx), idx) == WithSocket(ss, idx)
    ensures (forall i, j :: 0 <= i < j < |ss| ==> ss[i].index != ss[j].index) ==>
              var r := WithSocket(ss, idx);
              forall i, j :: 0 <= i < j < |r| ==> r[i].index != r[j].index
  {
  }
}

module SystemCpuExamples {
  import opened SystemCpu

  /** The topology `loadCpuInfo(2, 2, 2)` builds: core j of socket i holds i*2+j and i*2+j+4. */
  const TwoByTwo: seq<Socket> := [
    Socket(0, [Core(0, [0, 4]), Core(1, [1, 5])]),
    Socket(1, [Core(0, [2, 6]), Core(1, [3, 7])])]

  /** The topology `loadCpuInfo(2, 6, 2)` builds: core j of socket i holds i*6+j and i*6+j+12. */
  const TwoBySix: seq<Socket> := [
    Socket(0, [Core(0, [0, 12]), Core(1, [1, 13]), Core(2, [2, 14]), Core(3, [3, 15]), Core(4, [4, 16]), Core(5, [5, 17])]),
    Socket(1, [Core(0, [6, 18]), Core(1, [7, 19]), Core(2, [8, 20]), Core(3, [9, 21]), Core(4, [10, 22]), Core(5, [11, 23])])]

  /** The cases of `TestIsProcessorInSameSocket` on the larger topology. */
  lemma SameSocketCases()
    ensures SameSocket(TwoBySix, 0, 15)
    ensures !SameSocket(TwoBySix, 0, 6)
  {
    assert SockCores(TwoBySix[0].cores, 0, 15, 0, Sock(-1, -1)) == Sock(0, 0);
    assert SockCores(TwoBySix[0].cores, 0, 6, 0, Sock(-1, -1)) == Sock(0, -1);
    assert SockCores(TwoBySix[1].cores, 0, 6, 1, Sock(0, -1)) == Sock(0, 1);
  }

  /** The case of `TestIsProcessorInSameSocket` on the smaller topology. */
  lemma SameSocketSmallCase()
    ensures SameSocket(TwoByTwo, 0, 1)
  {
    assert SockCores(TwoByTwo[0].cores, 0, 1, 0, Sock(-1, -1)) == Sock(0, 0);
  }

  /** The cases of `TestIsProcessorInSameCore` that share a core. */
  lemma SameCoreCases()
    ensures SameCore(TwoBySix, 0, 12)
    ensures SameCore(TwoByTwo, 0, 4)
  {
    assert CoreCores(TwoBySix[0].cores, 0, 12, 0, Place(-1, -1, -1, -1)) == Place(0, 0, 0, 0);
    assert CoreCores(TwoByTwo[0].cores, 0, 4, 0, Place(-1, -1, -1, -1)) == Place(0, 0, 0, 0);
  }

  /** The cases of `TestIsProcessorInSameCore` on different cores or sockets. */
  lemma OtherCoreCases()
    ensures !SameCore(TwoBySix, 0, 1)
    ensures !SameCore(TwoBySix, 0, 6)
    ensures !SameCore(TwoBySix, 0, 8)
  {
    assert CoreCores(TwoBySix[0].cores, 0, 1, 0, Place(-1, -1, -1, -1)) == Place(0, 0, 1, 0);
    assert CoreCores(TwoBySix[0].cores, 0, 6, 0, Place(-1, -1, -1, -1)) == Place(0, 0, -1, -1);
    assert CoreCores(TwoBySix[0].cores, 0, 8, 0, Place(-1, -1, -1, -1)) == Place(0, 0, -1, -1);
  }

  /** The cases of `TestProcessorsRemove`. */
  lemma RemoveCases()
    ensures Without([1, 2, 3, 4, 5, 6, 7, 8], [1, 5, 7]) == [2, 3, 4, 6, 8]
  {
    var p := [1, 2, 3, 4, 5, 6, 7, 8];
    var l := [1, 5, 7];
    RemoveFrontCases();
    assert p[..4] == [1, 2, 3, 4];
    forall k | 5 <= k <= 8
      ensures p[..k][..k - 1] == p[..k - 1]
    {
    }
    assert Without(p[..5], l) == [2, 3, 4];
    assert Without(p[..6], l) == [2, 3, 4, 6];
    assert Without(p[..7], l) == [2, 3, 4, 6];
    assert p[..8] == p;
  }

  /** Removing the processors of one core from the first four. */
  lemma RemoveFrontCases()
    ensures Without([1, 2, 3, 4], [1, 5, 7]) == [2, 3, 4]
  {
    var p := [1, 2, 3, 4];
    var l := [1, 5, 7];
    forall k | 1 <= k <= 4
      ensures p[..k][..k - 1] == p[..k - 1]
    {
    }
    assert Without(p[..1], l) == [];
    assert Without(p[..2], l) == [2];
    assert Without(p[..3], l) == [2, 3];
    assert p[..4] == p;
  }

  /** Removing nothing keeps every processor. */
  lemma RemoveNothingCase()
    ensures Without([1, 2, 3, 4, 5, 6, 7, 8], []) == [1, 2, 3, 4, 5, 6, 7, 8]
  {
    WithoutNothing([1, 2, 3, 4, 5, 6, 7, 8]);
  }
}
