/**
 * Disk placement (`chooseDisk` in stone_plugin/plugin_unix.go).
 *
 * A request either names a disk id, and gets the first inventory disk with
 * that id, or is matched against every disk: file-system type, media type,
 * exclusivity and remaining capacity filter the inventory; the survivors are
 * ranked twice (remaining capacity ascending, IO load ascending with HDD load
 * doubled) and the first survivor with the smallest sum of ranks wins.
 * Sizes, io classes and their sums are Go `int64`s: every sum, difference
 * and doubling wraps modulo 2^64 (`ToInt64`).
 */
module Placement {
  import opened Wrappers
  import opened DiskTypes
  import opened Options
  import opened GoStrconv

  /** What placement reads of a registered volume: its disk, size, io class and exclusivity. */
  datatype Placed = Placed(diskId: string, size: int, ioClass: int, exclusive: bool)

  /** A disk with a ranking key (`scoredDisk`). */
  datatype ScoredDisk = ScoredDisk(disk: DiskInfo, score: int)

  const NO_DISK_SUIT: string := "sorry, no disk suit."

  /** The initial `minScore`: a candidate must score below it to be chosen. */
  const SCORE_CEILING: int := 100000

  function NotFoundMessage(diskId: string): string {
    "Not found the disk with input diskId " + diskId
  }

  // ---------------------------------------------------------------------------
  // Aggregates over the registered volumes

  /** What one volume adds to its disk's used size (or io class). */
  function Term(p: Placed, id: string, ioClass: bool): int {
    if p.diskId != id then 0 else if ioClass then p.ioClass else p.size
  }

  /** A fixed choice of one element of a non-empty key set. */
  ghost function Pick(keys: set<string>): (k: string)
    requires keys != {}
    ensures k in keys
  {
    var k :| k in keys; k
  }

  /** Sum of `Term` over the volumes whose names are in `keys`. */
  ghost function SumOn(vols: map<string, Placed>, keys: set<string>, id: string, ioClass: bool): int
    requires keys <= vols.Keys
    decreases keys
  {
    if keys == {} then 0
    else
      var k := Pick(keys);
      Term(vols[k], id, ioClass) + SumOn(vols, keys - {k}, id, ioClass)
  }

  /** The sum does not depend on which volume is taken first. */
  lemma {:induction false} SumOnPick(vols: map<string, Placed>, keys: set<string>, id: string, ioClass: bool, k: string)
    requires keys <= vols.Keys && k in keys
    ensures SumOn(vols, keys, id, ioClass) == Term(vols[k], id, ioClass) + SumOn(vols, keys - {k}, id, ioClass)
    decreases keys
  {
    var k0 := Pick(keys);
    if k != k0 {
      SumOnPick(vols, keys - {k0}, id, ioClass, k);
      SumOnPick(vols, keys - {k}, id, ioClass, k0);
      assert keys - {k0} - {k} == keys - {k} - {k0};
    }
  }

  /** Σ size of the volumes placed on disk `id`, in int64. */
  ghost function UsedSize(vols: map<string, Placed>, id: string): int {
    ToInt64(SumOn(vols, vols.Keys, id, false))
  }

  /** Σ io class of the volumes placed on disk `id`, in int64. */
  ghost function ExistIoClass(vols: map<string, Placed>, id: string): int {
    ToInt64(SumOn(vols, vols.Keys, id, true))
  }

  /** Volume `p` on disk `id` keeps the request off that disk. */
  predicate Blocks(req: OptsConfig, p: Placed, id: string) {
    p.diskId == id && (req.exclusive || p.exclusive)
  }

  /** The disk hosts an exclusive volume, or the request is exclusive and the disk hosts any volume. */
  ghost predicate Blocked(req: OptsConfig, vols: map<string, Placed>, id: string) {
    exists k :: k in vols && Blocks(req, vols[k], id)
  }

  /** All filters of the scan: types, exclusivity, remaining capacity. */
  ghost predicate Qualifies(req: OptsConfig, vols: map<string, Placed>, d: DiskInfo) {
    && (req.fsType == "" || d.FsType == req.fsType)
    && (req.mediaType == "" || d.MediaType == req.mediaType)
    && !Blocked(req, vols, d.Id)
    && Remaining(vols, d) >= req.size
  }

  /** The qualifying disks, in inventory order. */
  ghost function Candidates(req: OptsConfig, vols: map<string, Placed>, disks: seq<DiskInfo>): seq<DiskInfo>
  {
    if disks == [] then []
    else
      var last := disks[|disks| - 1];
      Candidates(req, vols, disks[..|disks| - 1]) + if Qualifies(req, vols, last) then [last] else []
  }

  /** The candidates are exactly the qualifying inventory disks. */
  lemma {:induction false} CandidatesQualify(req: OptsConfig, vols: map<string, Placed>, disks: seq<DiskInfo>)
    ensures forall j :: 0 <= j < |Candidates(req, vols, disks)| ==>
              Candidates(req, vols, disks)[j] in disks && Qualifies(req, vols, Candidates(req, vols, disks)[j])
    ensures forall d :: d in disks && Qualifies(req, vols, d) ==> d in Candidates(req, vols, disks)
  {
    if disks != [] {
      var init := disks[..|disks| - 1];
      assert disks == init + [disks[|disks| - 1]];
      CandidatesQualify(req, vols, init);
    }
  }

  /** Capacity left on a disk: its size less the sizes on it, in int64. */
  ghost function Remaining(vols: map<string, Placed>, d: DiskInfo): int {
    ToInt64(d.Size - UsedSize(vols, d.Id))
  }

  /** IO load of a disk: the io classes on it, counted twice on HDD, in int64. */
  ghost function IoLoad(vols: map<string, Placed>, d: DiskInfo): int {
    if d.MediaType == HDD then ToInt64(ExistIoClass(vols, d.Id) * 2) else ExistIoClass(vols, d.Id)
  }

  ghost function SizeScores(vols: map<string, Placed>, c: seq<DiskInfo>): (s: seq<ScoredDisk>)
    ensures |s| == |c|
    ensures forall j :: 0 <= j < |c| ==> s[j] == ScoredDisk(c[j], Remaining(vols, c[j]))
  {
    if c == [] then [] else SizeScores(vols, c[..|c| - 1]) + [ScoredDisk(c[|c| - 1], Remaining(vols, c[|c| - 1]))]
  }

  ghost function IoScores(vols: map<string, Placed>, c: seq<DiskInfo>): (s: seq<ScoredDisk>)
    ensures |s| == |c|
    ensures forall j :: 0 <= j < |c| ==> s[j] == ScoredDisk(c[j], IoLoad(vols, c[j]))
  {
    if c == [] then [] else IoScores(vols, c[..|c| - 1]) + [ScoredDisk(c[|c| - 1], IoLoad(vols, c[|c| - 1]))]
  }

  // ---------------------------------------------------------------------------
  // Sorting by score (`sort.Sort(scoredDiskList)`)

  predicate SortedByScore(s: seq<ScoredDisk>) {
    forall p, q :: 0 <= p < q < |s| ==> s[p].score <= s[q].score
  }

  /** Insert `x` after every element whose score is not above its own. */
  function Insert(x: ScoredDisk, s: seq<ScoredDisk>): (r: seq<ScoredDisk>)
    requires SortedByScore(s)
    ensures SortedByScore(r)
    ensures multiset(r) == multiset(s) + multiset{x}
    ensures |r| == |s| + 1
    ensures r[0] == x || (|s| > 0 && r[0] == s[0])
  {
    if s == [] then [x]
    else if x.score < s[0].score then [x] + s
    else
      assert s == [s[0]] + s[1..];
      [s[0]] + Insert(x, s[1..])
  }

  /**
   * Sorting the scored list ascending by score, as a stable insertion sort.
   * Go's `sort.Sort` orders the scores the same way; it keeps equal scores in
   * list order only for up to 12 elements since Go 1.19 (up to 6 before), and
   * may order ties differently on longer lists.
   */
  function SortByScore(s: seq<ScoredDisk>): (r: seq<ScoredDisk>)
    ensures SortedByScore(r)
    ensures multiset(r) == multiset(s)
    ensures |r| == |s|
  {
    if s == [] then []
    else
      assert s == s[..|s| - 1] + [s[|s| - 1]];
      Insert(s[|s| - 1], SortByScore(s[..|s| - 1]))
  }

  // ---------------------------------------------------------------------------
  // Scores

  /** Σ of the positions of the entries for disk `id`; with `skipZero`, entries of score 0 add nothing. */
  function RankSum(list: seq<ScoredDisk>, id: string, skipZero: bool): int
  {
    if list == [] then 0
    else
      var i := |list| - 1;
      RankSum(list[..i], id, skipZero)
        + if list[i].disk.Id == id && (!skipZero || list[i].score != 0) then i else 0
  }

  /** The sum of a disk's ranks in the two sorted lists. */
  function TotalRank(sizeRanked: seq<ScoredDisk>, ioRanked: seq<ScoredDisk>, id: string): int {
    RankSum(sizeRanked, id, false) + RankSum(ioRanked, id, true)
  }

  /** A disk's score: its rank by remaining capacity plus, when its IO load is not zero, its rank by IO load. */
  ghost function Score(req: OptsConfig, vols: map<string, Placed>, disks: seq<DiskInfo>, id: string): int {
    var c := Candidates(req, vols, disks);
    TotalRank(SortByScore(SizeScores(vols, c)), SortByScore(IoScores(vols, c)), id)
  }

  /** Position `k` of `c` holds the first disk of minimal total rank, and that rank is below the ceiling. */
  ghost predicate IsFirstMinimum(c: seq<DiskInfo>, sizeRanked: seq<ScoredDisk>, ioRanked: seq<ScoredDisk>, k: int) {
    && 0 <= k < |c|
    && TotalRank(sizeRanked, ioRanked, c[k].Id) < SCORE_CEILING
    && (forall j :: 0 <= j < k ==> TotalRank(sizeRanked, ioRanked, c[j].Id) > TotalRank(sizeRanked, ioRanked, c[k].Id))
    && (forall j :: k < j < |c| ==> TotalRank(sizeRanked, ioRanked, c[j].Id) >= TotalRank(sizeRanked, ioRanked, c[k].Id))
  }

  /** Candidate `k` is the one placement must choose. */
  ghost predicate IsSelection(req: OptsConfig, vols: map<string, Placed>, disks: seq<DiskInfo>, k: int) {
    var c := Candidates(req, vols, disks);
    IsFirstMinimum(c, SortByScore(SizeScores(vols, c)), SortByScore(IoScores(vols, c)), k)
  }

  // ---------------------------------------------------------------------------
  // The placement itself

  /** The volumes on disk `id`: whether one blocks the request, else their total size and io class. */
  method Tally(req: OptsConfig, vols: map<string, Placed>, id: string)
    returns (usedSize: int, existIoClass: int, blocked: bool)
    ensures blocked <==> Blocked(req, vols, id)
    ensures !blocked ==> usedSize == UsedSize(vols, id) && existIoClass == ExistIoClass(vols, id)
  {
    usedSize, existIoClass, blocked := 0, 0, false;
    var todo := vols.Keys;
    while todo != {}
      invariant todo <= vols.Keys
      invariant ToInt64(usedSize + SumOn(vols, todo, id, false)) == UsedSize(vols, id)
      invariant ToInt64(existIoClass + SumOn(vols, todo, id, true)) == ExistIoClass(vols, id)
      invariant INT64_MIN <= usedSize <= INT64_MAX && INT64_MIN <= existIoClass <= INT64_MAX
      invariant forall k :: k in vols && k !in todo ==> !Blocks(req, vols[k], id)
      decreases todo
    {
      var k :| k in todo;
      var v := vols[k];
      if v.diskId == id {
        if req.exclusive || v.exclusive {
          return 0, 0, true;
        }
      }
      SumOnPick(vols, todo, id, false, k);
      SumOnPick(vols, todo, id, true, k);
      ToInt64Add(usedSize + Term(v, id, false), SumOn(vols, todo - {k}, id, false));
      ToInt64Add(existIoClass + Term(v, id, true), SumOn(vols, todo - {k}, id, true));
      usedSize := ToInt64(usedSize + Term(v, id, false));
      existIoClass := ToInt64(existIoClass + Term(v, id, true));
      todo := todo - {k};
    }
  }

  /** The filtering pass: the qualifying disks with their remaining capacity and IO load. */
  method Scan(req: OptsConfig, vols: map<string, Placed>, disks: seq<DiskInfo>)
    returns (candidates: seq<DiskInfo>, sizeScores: seq<ScoredDisk>, ioClassScores: seq<ScoredDisk>)
    ensures candidates == Candidates(req, vols, disks)
    ensures sizeScores == SizeScores(vols, candidates)
    ensures ioClassScores == IoScores(vols, candidates)
  {
    candidates, sizeScores, ioClassScores := [], [], [];
    var i := 0;
    while i < |disks|
      invariant 0 <= i <= |disks|
      invariant candidates == Candidates(req, vols, disks[..i])
      invariant sizeScores == SizeScores(vols, candidates)
      invariant ioClassScores == IoScores(vols, candidates)
    {
      var d := disks[i];
      CandidatesStep(req, vols, disks, i);
      var qualifies, remaining, load := Consider(req, vols, d);
      if qualifies {
        ScoresStep(vols, candidates, d);
        sizeScores := sizeScores + [ScoredDisk(d, remaining)];
        ioClassScores := ioClassScores + [ScoredDisk(d, load)];
        candidates := candidates + [d];
      }
      i := i + 1;
    }
    assert disks[..i] == disks;
  }

  /** The body of the filtering pass for one disk: whether it qualifies, and then its remaining capacity and IO load. */
  method Consider(req: OptsConfig, vols: map<string, Placed>, d: DiskInfo)
    returns (qualifies: bool, remaining: int, load: int)
    ensures qualifies == Qualifies(req, vols, d)
    ensures qualifies ==> remaining == Remaining(vols, d) && load == IoLoad(vols, d)
  {
    qualifies, remaining, load := false, 0, 0;
    var typesMatch := (req.fsType == "" || d.FsType == req.fsType)
                      && (req.mediaType == "" || d.MediaType == req.mediaType);
    if typesMatch {
      var usedSize, existIoClass, blocked := Tally(req, vols, d.Id);
      if !blocked && ToInt64(d.Size - usedSize) >= req.size {
        qualifies := true;
        remaining := ToInt64(d.Size - usedSize);
        load := if d.MediaType == HDD then ToInt64(existIoClass * 2) else existIoClass;
      }
    }
  }

  lemma CandidatesStep(req: OptsConfig, vols: map<string, Placed>, disks: seq<DiskInfo>, i: int)
    requires 0 <= i < |disks|
    ensures Candidates(req, vols, disks[..i + 1])
            == Candidates(req, vols, disks[..i]) + if Qualifies(req, vols, disks[i]) then [disks[i]] else []
  {
    assert disks[..i + 1][..i] == disks[..i];
  }

  lemma ScoresStep(vols: map<string, Placed>, c: seq<DiskInfo>, d: DiskInfo)
    ensures SizeScores(vols, c + [d]) == SizeScores(vols, c) + [ScoredDisk(d, Remaining(vols, d))]
    ensures IoScores(vols, c + [d]) == IoScores(vols, c) + [ScoredDisk(d, IoLoad(vols, d))]
  {
    assert (c + [d])[..|c|] == c;
  }

  /** Σ of the positions in `list` that hold disk `id` (skipping zero scores when asked). */
  method RankOf(list: seq<ScoredDisk>, id: string, skipZero: bool) returns (total: int)
    ensures total == RankSum(list, id, skipZero)
  {
    total := 0;
    var p := 0;
    while p < |list|
      invariant 0 <= p <= |list|
      invariant total == RankSum(list[..p], id, skipZero)
    {
      assert list[..p + 1][..p] == list[..p];
      if list[p].disk.Id == id && (!skipZero || list[p].score != 0) {
        total := total + p;
      }
      p := p + 1;
    }
    assert list[..p] == list;
  }

  /** The selection pass: the first candidate whose total rank is below every earlier best (starting from the ceiling). */
  method Select(candidates: seq<DiskInfo>, sizeRanked: seq<ScoredDisk>, ioRanked: seq<ScoredDisk>)
    returns (selected: Option<DiskInfo>)
    ensures selected.None? <==> forall j :: 0 <= j < |candidates| ==> TotalRank(sizeRanked, ioRanked, candidates[j].Id) >= SCORE_CEILING
    ensures selected.Some? ==> exists k :: IsFirstMinimum(candidates, sizeRanked, ioRanked, k) && candidates[k] == selected.value
  {
    var minScore := SCORE_CEILING;
    selected := None;
    ghost var sel := -1;
    var k := 0;
    while k < |candidates|
      invariant 0 <= k <= |candidates|
      invariant -1 <= sel < k
      invariant sel == -1 <==> selected.None?
      invariant sel == -1 ==> minScore == SCORE_CEILING
      invariant sel != -1 ==>
                  selected == Some(candidates[sel])
                  && minScore == TotalRank(sizeRanked, ioRanked, candidates[sel].Id) < SCORE_CEILING
      invariant forall j :: 0 <= j < k ==> TotalRank(sizeRanked, ioRanked, candidates[j].Id) >= minScore
      invariant forall j :: 0 <= j < sel ==> TotalRank(sizeRanked, ioRanked, candidates[j].Id) > minScore
    {
      var sizeRank := RankOf(sizeRanked, candidates[k].Id, false);
      var ioRank := RankOf(ioRanked, candidates[k].Id, true);
      var totalScore := sizeRank + ioRank;
      if totalScore < minScore {
        minScore := totalScore;
        selected := Some(candidates[k]);
        sel := k;
      }
      k := k + 1;
    }
    if sel != -1 {
      assert IsFirstMinimum(candidates, sizeRanked, ioRanked, sel);
    }
  }

  /** `chooseDisk`: the inventory is `tools.Collect()`'s result, `vols` the registry's volumes. */
  method ChooseDisk(req: OptsConfig, inventory: Result<seq<DiskInfo>>, vols: map<string, Placed>)
    returns (r: Result<DiskInfo>)
    ensures inventory.Err? ==> r == Err(inventory.error)
    ensures r.Ok? ==> inventory.Ok? && r.value in inventory.value
    // A named disk: the first inventory entry with that id, and no scoring.
    ensures inventory.Ok? && req.diskId != "" ==>
              && (r.Ok? <==> exists i :: 0 <= i < |inventory.value| && inventory.value[i].Id == req.diskId)
              && (r.Ok? ==> exists i :: 0 <= i < |inventory.value| && inventory.value[i] == r.value
                                     && r.value.Id == req.diskId
                                     && forall j :: 0 <= j < i ==> inventory.value[j].Id != req.diskId)
              && (r.Err? ==> r.error == NotFoundMessage(req.diskId))
    // Otherwise: a qualifying disk, the first with the minimal score.
    ensures inventory.Ok? && req.diskId == "" ==>
              && (r.Ok? ==> r.value in inventory.value && Qualifies(req, vols, r.value))
              && (r.Ok? ==> exists k :: IsSelection(req, vols, inventory.value, k)
                                     && Candidates(req, vols, inventory.value)[k] == r.value)
              && (r.Err? <==> forall j :: 0 <= j < |Candidates(req, vols, inventory.value)| ==>
                                Score(req, vols, inventory.value, Candidates(req, vols, inventory.value)[j].Id) >= SCORE_CEILING)
              && (r.Err? ==> r.error == NO_DISK_SUIT)
  {
    if inventory.Err? {
      return Err(inventory.error);
    }
    if req.diskId != "" {
      r := NamedDisk(inventory.value, req.diskId);
    } else {
      r := BestScoredDisk(req, inventory.value, vols);
    }
  }

  /** The first inventory disk with the requested id. */
  method NamedDisk(disks: seq<DiskInfo>, diskId: string) returns (r: Result<DiskInfo>)
    ensures r.Ok? <==> exists i :: 0 <= i < |disks| && disks[i].Id == diskId
    ensures r.Ok? ==> exists i :: 0 <= i < |disks| && disks[i] == r.value && r.value.Id == diskId
                               && forall j :: 0 <= j < i ==> disks[j].Id != diskId
    ensures r.Err? ==> r.error == NotFoundMessage(diskId)
  {
    var i := 0;
    while i < |disks|
      invariant 0 <= i <= |disks|
      invariant forall j :: 0 <= j < i ==> disks[j].Id != diskId
    {
      if disks[i].Id == diskId {
        return Ok(disks[i]);
      }
      i := i + 1;
    }
    return Err(NotFoundMessage(diskId));
  }

  /** Filtering, ranking and selection over the whole inventory. */
  method BestScoredDisk(req: OptsConfig, disks: seq<DiskInfo>, vols: map<string, Placed>) returns (r: Result<DiskInfo>)
    ensures r.Ok? ==> r.value in disks && Qualifies(req, vols, r.value)
    ensures r.Ok? ==> exists k :: IsSelection(req, vols, disks, k) && Candidates(req, vols, disks)[k] == r.value
    ensures r.Err? <==> forall j :: 0 <= j < |Candidates(req, vols, disks)| ==>
                          Score(req, vols, disks, Candidates(req, vols, disks)[j].Id) >= SCORE_CEILING
    ensures r.Err? ==> r.error == NO_DISK_SUIT
  {
    var candidates, sizeScores, ioClassScores := Scan(req, vols, disks);
    sizeScores := SortByScore(sizeScores);
    ioClassScores := SortByScore(ioClassScores);
    var selected := Select(candidates, sizeScores, ioClassScores);
    if selected.None? {
      return Err(NO_DISK_SUIT);
    }
    CandidatesQualify(req, vols, disks);
    ghost var k :| IsFirstMinimum(candidates, sizeScores, ioClassScores, k) && candidates[k] == selected.value;
    assert IsSelection(req, vols, disks, k);
    return Ok(selected.value);
  }

  // ---------------------------------------------------------------------------
  // Properties of the ranking

  /** The first entry of the capacity ranking leaves the least room among all candidates (best fit ranks 0). */
  lemma TightestFitRanksFirst(vols: map<string, Placed>, c: seq<DiskInfo>)
    requires |c| > 0
    ensures forall d :: d in c ==> SortByScore(SizeScores(vols, c))[0].score <= Remaining(vols, d)
  {
    var scores := SizeScores(vols, c);
    var ranked := SortByScore(scores);
    forall d | d in c
      ensures ranked[0].score <= Remaining(vols, d)
    {
      var j :| 0 <= j < |c| && c[j] == d;
      assert scores[j] in multiset(ranked);
      var q :| 0 <= q < |ranked| && ranked[q] == scores[j];
      if q > 0 {
        assert ranked[0].score <= ranked[q].score;
      }
    }
  }

  /**
   * The int64 wrap of the used size: two volumes of 2^63 - 1 bytes each on a
   * 100-byte disk sum to -2, so the disk reports 102 bytes left and passes the
   * capacity filter of a 10-byte request.
   */
  lemma OverfullDiskQualifies(d: DiskInfo, vols: map<string, Placed>, req: OptsConfig)
    requires d.Id == "sdb" && d.Size == 100 && d.MediaType == SSD
    requires vols == map["a" := Placed("sdb", INT64_MAX, 0, false), "b" := Placed("sdb", INT64_MAX, 0, false)]
    requires req == OptsConfig("", "", "", 10, 0, false)
    ensures SumOn(vols, vols.Keys, d.Id, false) == 2 * INT64_MAX
    ensures Remaining(vols, d) == 102
    ensures Qualifies(req, vols, d)
  {
    assert vols.Keys == {"a", "b"};
    SumOnPick(vols, vols.Keys, d.Id, false, "a");
    assert vols.Keys - {"a"} == {"b"};
    SumOnPick(vols, {"b"}, d.Id, false, "b");
    assert {"b"} - {"b"} == {};
    forall k | k in vols ensures !Blocks(req, vols[k], d.Id) { }
  }

  /** No two disks share an id. */
  predicate UniqueIds(c: seq<DiskInfo>) {
    forall p, q :: 0 <= p < q < |c| ==> c[p].Id != c[q].Id
  }

  /** How many entries of `s` are for disk `id`. */
  function IdCount(s: seq<ScoredDisk>, id: string): (n: nat)
    ensures n <= |s|
  {
    if s == [] then 0 else (if s[0].disk.Id == id then 1 else 0) + IdCount(s[1..], id)
  }

  lemma {:induction false} IdCountAppend(a: seq<ScoredDisk>, b: seq<ScoredDisk>, id: string)
    ensures IdCount(a + b, id) == IdCount(a, id) + IdCount(b, id)
  {
    if a == [] {
      assert a + b == b;
    } else {
      assert (a + b)[1..] == a[1..] + b;
      IdCountAppend(a[1..], b, id);
    }
  }

  lemma {:induction false} IdCountInsert(x: ScoredDisk, s: seq<ScoredDisk>, id: string)
    requires SortedByScore(s)
    ensures IdCount(Insert(x, s), id) == IdCount(s, id) + if x.disk.Id == id then 1 else 0
  {
    if s != [] && x.score >= s[0].score {
      IdCountInsert(x, s[1..], id);
      assert Insert(x, s)[1..] == Insert(x, s[1..]);
    } else if s != [] {
      assert Insert(x, s)[1..] == s;
    }
  }

  /** Sorting neither adds nor drops entries for a disk. */
  lemma {:induction false} IdCountSort(s: seq<ScoredDisk>, id: string)
    ensures IdCount(SortByScore(s), id) == IdCount(s, id)
  {
    if s != [] {
      var init, x := s[..|s| - 1], s[|s| - 1];
      IdCountSort(init, id);
      assert SortByScore(s) == Insert(x, SortByScore(init));
      IdCountInsert(x, SortByScore(init), id);
      IdCountSnoc(s, id);
    }
  }

  /** The last entry adds one for its own disk. */
  lemma IdCountSnoc(s: seq<ScoredDisk>, id: string)
    requires s != []
    ensures IdCount(s, id) == IdCount(s[..|s| - 1], id) + if s[|s| - 1].disk.Id == id then 1 else 0
  {
    var init := s[..|s| - 1];
    assert s == init + [s[|s| - 1]];
    IdCountAppend(init, [s[|s| - 1]], id);
  }

  /** A disk with at most one entry ranks no later than the last position, and a disk with none ranks 0. */
  lemma {:induction false} RankSumBound(list: seq<ScoredDisk>, id: string, skipZero: bool)
    requires IdCount(list, id) <= 1
    ensures RankSum(list, id, skipZero) >= 0
    ensures IdCount(list, id) == 0 ==> RankSum(list, id, skipZero) == 0
    ensures |list| > 0 ==> RankSum(list, id, skipZero) <= |list| - 1
  {
    if list != [] {
      var i := |list| - 1;
      var init := list[..i];
      assert list == init + [list[i]];
      IdCountAppend(init, [list[i]], id);
      RankSumBound(init, id, skipZero);
    }
  }

  /** Entries built from disks with distinct ids hold each id at most once. */
  lemma {:induction false} IdCountOfUnique(s: seq<ScoredDisk>, id: string)
    requires forall p, q :: 0 <= p < q < |s| ==> s[p].disk.Id != s[q].disk.Id
    ensures IdCount(s, id) <= 1
    ensures (forall j :: 0 <= j < |s| ==> s[j].disk.Id != id) ==> IdCount(s, id) == 0
  {
    if s != [] {
      IdCountOfUnique(s[1..], id);
      if s[0].disk.Id == id {
        assert forall j :: 0 <= j < |s[1..]| ==> s[1..][j].disk.Id != id by {
          forall j | 0 <= j < |s[1..]| ensures s[1..][j].disk.Id != id {
            assert s[1..][j] == s[j + 1];
          }
        }
      }
    }
  }

  /**
   * With distinct disk ids and at most 50000 candidates every score stays
   * below the ceiling, so whenever some disk qualifies one is chosen.
   */
  lemma SomeCandidateIsChosen(req: OptsConfig, vols: map<string, Placed>, disks: seq<DiskInfo>)
    requires UniqueIds(Candidates(req, vols, disks))
    requires 0 < |Candidates(req, vols, disks)| <= SCORE_CEILING / 2
    ensures forall j :: 0 <= j < |Candidates(req, vols, disks)| ==>
              Score(req, vols, disks, Candidates(req, vols, disks)[j].Id) < SCORE_CEILING
    ensures exists k :: IsSelection(req, vols, disks, k)
  {
    var c := Candidates(req, vols, disks);
    var sizeRanked := SortByScore(SizeScores(vols, c));
    var ioRanked := SortByScore(IoScores(vols, c));
    forall j | 0 <= j < |c|
      ensures Score(req, vols, disks, c[j].Id) < SCORE_CEILING
    {
      TotalRankBound(vols, c, c[j].Id);
    }
    // the first candidate of minimal score
    var k := FirstMinimumExists(c, sizeRanked, ioRanked);
    assert IsSelection(req, vols, disks, k);
  }

  /** A candidate below the ceiling means there is a first minimum, and it is a qualifying disk of the inventory. */
  lemma SelectionBelowCeiling(req: OptsConfig, vols: map<string, Placed>, disks: seq<DiskInfo>, j: int) returns (k: int)
    requires 0 <= j < |Candidates(req, vols, disks)|
    requires Score(req, vols, disks, Candidates(req, vols, disks)[j].Id) < SCORE_CEILING
    ensures IsSelection(req, vols, disks, k)
    ensures Candidates(req, vols, disks)[k] in disks && Qualifies(req, vols, Candidates(req, vols, disks)[k])
  {
    var c := Candidates(req, vols, disks);
    k := FirstMinimumBelow(c, SortByScore(SizeScores(vols, c)), SortByScore(IoScores(vols, c)), j);
    CandidatesQualify(req, vols, disks);
  }

  /** The first minimum of a ranking lies below the ceiling when some position does. */
  lemma FirstMinimumBelow(c: seq<DiskInfo>, sizeRanked: seq<ScoredDisk>, ioRanked: seq<ScoredDisk>, j: int) returns (k: int)
    requires 0 <= j < |c| && TotalRank(sizeRanked, ioRanked, c[j].Id) < SCORE_CEILING
    ensures IsFirstMinimum(c, sizeRanked, ioRanked, k)
  {
    k := FirstMinimumExists(c, sizeRanked, ioRanked);
    assert TotalRank(sizeRanked, ioRanked, c[k].Id) <= TotalRank(sizeRanked, ioRanked, c[j].Id);
  }

  /** Under distinct ids a disk's total rank is at most twice the last position. */
  lemma TotalRankBound(vols: map<string, Placed>, c: seq<DiskInfo>, id: string)
    requires UniqueIds(c) && |c| > 0
    ensures TotalRank(SortByScore(SizeScores(vols, c)), SortByScore(IoScores(vols, c)), id) <= 2 * (|c| - 1)
  {
    IdCountSort(SizeScores(vols, c), id);
    IdCountSort(IoScores(vols, c), id);
    IdCountOfUnique(SizeScores(vols, c), id);
    IdCountOfUnique(IoScores(vols, c), id);
    RankSumBound(SortByScore(SizeScores(vols, c)), id, false);
    RankSumBound(SortByScore(IoScores(vols, c)), id, true);
  }

  /** Position of the first entry of minimal total rank. */
  lemma {:induction false} FirstMinimumExists(c: seq<DiskInfo>, sizeRanked: seq<ScoredDisk>, ioRanked: seq<ScoredDisk>)
    returns (k: int)
    requires |c| > 0
    ensures 0 <= k < |c|
    ensures forall j :: 0 <= j < k ==> TotalRank(sizeRanked, ioRanked, c[j].Id) > TotalRank(sizeRanked, ioRanked, c[k].Id)
    ensures forall j :: k < j < |c| ==> TotalRank(sizeRanked, ioRanked, c[j].Id) >= TotalRank(sizeRanked, ioRanked, c[k].Id)
  {
    k := 0;
    var n := 1;
    while n < |c|
      invariant 1 <= n <= |c| && 0 <= k < n
      invariant forall j :: 0 <= j < k ==> TotalRank(sizeRanked, ioRanked, c[j].Id) > TotalRank(sizeRanked, ioRanked, c[k].Id)
      invariant forall j :: k < j < n ==> TotalRank(sizeRanked, ioRanked, c[j].Id) >= TotalRank(sizeRanked, ioRanked, c[k].Id)
    {
      if TotalRank(sizeRanked, ioRanked, c[n].Id) < TotalRank(sizeRanked, ioRanked, c[k].Id) {
        k := n;
      }
      n := n + 1;
    }
  }
}
