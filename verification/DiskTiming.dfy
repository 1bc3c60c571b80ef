/** The disk cost model of raid.py: disk.enqueue and what runs of accesses cost. */
module DiskTiming {
  import opened Arithmetic
  import opened RaidLayout
  import opened RaidPlan

  const NUM_TRACKS: int := 100
  const BLOCKS_PER_TRACK: int := 100
  const BLOCKS_PER_DISK: int := NUM_TRACKS * BLOCKS_PER_TRACK

  /** Time to seek and time to transfer one block, in milliseconds. */
  datatype Speed = Speed(seekTime: real, xferTime: real)

  const DEFAULT_SPEED: Speed := Speed(10.0, 0.1)

  datatype DiskState = DiskState(currAddr: int, countIO: nat, countSeq: nat, countNseq: nat, countRand: nat,
                                 utilTime: real)

  const FRESH: DiskState := DiskState(-10000, 0, 0, 0, 0, 0.0)

  /** One access: near accesses cost their distance, far ones a seek and a transfer. */
  function Access(sp: Speed, d: DiskState, addr: int): DiskState {
    var diff := Abs(addr - d.currAddr);
    var near := d.currAddr / NUM_TRACKS == addr / NUM_TRACKS || diff < BLOCKS_PER_TRACK;
    DiskState(
      addr,
      d.countIO + 1,
      if near && diff == 1 then d.countSeq + 1 else d.countSeq,
      if near && diff != 1 then d.countNseq + 1 else d.countNseq,
      if near then d.countRand else d.countRand + 1,
      d.utilTime + if near then diff as real * sp.xferTime else sp.seekTime + sp.xferTime)
  }

  function Run(sp: Speed, offs: seq<int>): DiskState {
    if offs == [] then FRESH else Access(sp, Run(sp, offs[..|offs| - 1]), offs[|offs| - 1])
  }

  /** The offsets one disk is asked for, in order. */
  function OffsetsOn(trace: seq<IO>, disk: int): seq<int> {
    if trace == [] then []
    else
      var io := trace[|trace| - 1];
      OffsetsOn(trace[..|trace| - 1], disk) + (if io.at.disk == disk then [io.at.off] else [])
  }

  lemma OffsetsOnStep(trace: seq<IO>, io: IO, disk: int)
    ensures OffsetsOn(trace + [io], disk) ==
            if io.at.disk == disk then OffsetsOn(trace, disk) + [io.at.off] else OffsetsOn(trace, disk)
  {
    assert (trace + [io])[..|trace|] == trace;
  }

  lemma RunStep(sp: Speed, offs: seq<int>, off: int)
    ensures Run(sp, offs + [off]) == Access(sp, Run(sp, offs), off)
  {
    assert (offs + [off])[..|offs|] == offs;
  }

  /** Every access is counted once, as sequential, nearly sequential or random. */
  lemma {:induction false} CountsAddUp(sp: Speed, offs: seq<int>)
    ensures var d := Run(sp, offs);
            d.countIO == |offs| == d.countSeq + d.countNseq + d.countRand
  {
    if offs != [] {
      CountsAddUp(sp, offs[..|offs| - 1]);
    }
  }

  // ---------- the cost in terms of the offsets ----------

  /** On one track of 100 blocks, or fewer than 100 blocks apart. */
  ghost predicate Near(x: int, y: int) { x / 100 == y / 100 || Abs(y - x) < 100 }

  /** Where the head is before access i; a fresh disk is 10000 blocks before its first one. */
  ghost function HeadBefore(offs: seq<int>, i: nat): int
    requires i < |offs|
  {
    if i == 0 then -10000 else offs[i - 1]
  }

  /** The accesses that are not near the one before, among the first n. */
  ghost function FarAccesses(offs: seq<int>, n: nat): nat
    requires n <= |offs|
  {
    if n == 0 then 0
    else FarAccesses(offs, n - 1) + (if Near(HeadBefore(offs, n - 1), offs[n - 1]) then 0 else 1)
  }

  /** How far the head travels in the near accesses among the first n. */
  ghost function NearDistance(offs: seq<int>, n: nat): nat
    requires n <= |offs|
  {
    if n == 0 then 0
    else
      var x := HeadBefore(offs, n - 1);
      NearDistance(offs, n - 1) + (if Near(x, offs[n - 1]) then Abs(offs[n - 1] - x) else 0)
  }

  lemma HeadAfter(sp: Speed, offs: seq<int>)
    ensures Run(sp, offs).currAddr == if offs == [] then -10000 else offs[|offs| - 1]
  {
  }

  /** What an access adds to the time; the rest of the cost is in the counters. */
  ghost function Charge(sp: Speed, x: int, y: int): real {
    if Near(x, y) then Abs(y - x) as real * sp.xferTime else sp.seekTime + sp.xferTime
  }

  lemma NearIsNear(x: int, y: int)
    ensures Near(x, y) <==> x / NUM_TRACKS == y / NUM_TRACKS || Abs(y - x) < BLOCKS_PER_TRACK
  {
    assert NUM_TRACKS == 100 && BLOCKS_PER_TRACK == 100;
  }

  lemma AccessCounts(sp: Speed, d: DiskState, y: int)
    ensures var d' := Access(sp, d, y);
            var next := Abs(y - d.currAddr) == 1;
            && d'.countRand == d.countRand + (if Near(d.currAddr, y) then 0 else 1)
            && d'.countSeq == d.countSeq + (if Near(d.currAddr, y) && next then 1 else 0)
            && d'.countNseq == d.countNseq + (if Near(d.currAddr, y) && !next then 1 else 0)
            && d'.utilTime == d.utilTime + Charge(sp, d.currAddr, y)
  {
    NearIsNear(d.currAddr, y);
  }

  /**
   Going from block x to block y costs a transfer time per block of distance if they are near, and counts as
   sequential exactly if they are neighbours; otherwise it costs a seek and a transfer, and counts as random.
   */
  lemma NextAccess(sp: Speed, offs: seq<int>, y: int)
    ensures var x := HeadBefore(offs + [y], |offs|);
            var d := Run(sp, offs);
            var d' := Run(sp, offs + [y]);
            && d'.utilTime == d.utilTime + Charge(sp, x, y)
            && d'.countRand == d.countRand + (if Near(x, y) then 0 else 1)
            && d'.countSeq == d.countSeq + (if Near(x, y) && Abs(y - x) == 1 then 1 else 0)
            && d'.countNseq == d.countNseq + (if Near(x, y) && Abs(y - x) != 1 then 1 else 0)
  {
    RunStep(sp, offs, y);
    HeadAfter(sp, offs);
    AccessCounts(sp, Run(sp, offs), y);
  }

  lemma {:induction false} PrefixCost(offs: seq<int>, more: seq<int>, n: nat)
    requires n <= |offs|
    ensures FarAccesses(offs + more, n) == FarAccesses(offs, n) && NearDistance(offs + more, n) == NearDistance(offs, n)
  {
    if n > 0 {
      PrefixCost(offs, more, n - 1);
    }
  }

  lemma ChargeStep(sp: Speed, far: nat, dist: nat, x: int, y: int)
    ensures var far' := far + if Near(x, y) then 0 else 1;
            var dist' := dist + if Near(x, y) then Abs(y - x) else 0;
            far' as real * (sp.seekTime + sp.xferTime) + dist' as real * sp.xferTime ==
            far as real * (sp.seekTime + sp.xferTime) + dist as real * sp.xferTime + Charge(sp, x, y)
  {
    if Near(x, y) {
      Distribute(dist, Abs(y - x), sp.xferTime);
    } else {
      Distribute(far, 1, sp.seekTime + sp.xferTime);
    }
  }

  lemma Distribute(a: nat, b: nat, x: real)
    ensures (a + b) as real * x == a as real * x + b as real * x
  {
  }

  /** A far access for each unit of far, and a transfer for each block of dist. */
  ghost predicate Costs(sp: Speed, time: real, far: nat, dist: nat) {
    time == far as real * (sp.seekTime + sp.xferTime) + dist as real * sp.xferTime
  }

  lemma CostsOneMore(sp: Speed, time: real, far: nat, dist: nat, x: int, y: int)
    requires Costs(sp, time, far, dist)
    ensures Costs(sp, time + Charge(sp, x, y), far + (if Near(x, y) then 0 else 1),
                  dist + if Near(x, y) then Abs(y - x) else 0)
  {
    ChargeStep(sp, far, dist, x, y);
  }

  /** The counts and sums with one more access. */
  lemma OneMoreAccess(offs: seq<int>, y: int)
    ensures var n := |offs|;
            var x := HeadBefore(offs + [y], n);
            && FarAccesses(offs + [y], n + 1) == FarAccesses(offs, n) + (if Near(x, y) then 0 else 1)
            && NearDistance(offs + [y], n + 1) == NearDistance(offs, n) + (if Near(x, y) then Abs(y - x) else 0)
  {
    PrefixCost(offs, [y], |offs|);
  }

  /** A seek and a transfer for every far access, and the distances of the near ones, whatever the offsets are. */
  lemma {:induction false} CostOfRun(sp: Speed, offs: seq<int>)
    ensures Run(sp, offs).countRand == FarAccesses(offs, |offs|)
    ensures Costs(sp, Run(sp, offs).utilTime, FarAccesses(offs, |offs|), NearDistance(offs, |offs|))
    decreases |offs|
  {
    if offs != [] {
      CostOfRun(sp, offs[..|offs| - 1]);
      CostStep(sp, offs[..|offs| - 1], offs[|offs| - 1]);
      assert offs == offs[..|offs| - 1] + [offs[|offs| - 1]];
    }
  }

  lemma CostStep(sp: Speed, offs: seq<int>, y: int)
    requires Run(sp, offs).countRand == FarAccesses(offs, |offs|)
    requires Costs(sp, Run(sp, offs).utilTime, FarAccesses(offs, |offs|), NearDistance(offs, |offs|))
    ensures var all := offs + [y];
            && Run(sp, all).countRand == FarAccesses(all, |all|)
            && Costs(sp, Run(sp, all).utilTime, FarAccesses(all, |all|), NearDistance(all, |all|))
  {
    OneMoreAccess(offs, y);
    NextAccess(sp, offs, y);
    CostsOneMore(sp, Run(sp, offs).utilTime, FarAccesses(offs, |offs|), NearDistance(offs, |offs|),
                 HeadBefore(offs + [y], |offs|), y);
  }

  /** With the program's times: a block 50 away costs 5.0 more than the first, and reading it again nothing. */
  lemma NearCosts()
    ensures Run(DEFAULT_SPEED, [0]).utilTime == 10.1
    ensures Run(DEFAULT_SPEED, [0, 50]).utilTime == 15.1 == Run(DEFAULT_SPEED, [0, 50, 50]).utilTime
  {
    assert [0, 50][..1] == [0] && [0, 50, 50][..2] == [0, 50] && [0][..0] == [];
    assert Run(DEFAULT_SPEED, [0]) == DiskState(0, 1, 0, 0, 1, 10.1);
    assert Run(DEFAULT_SPEED, [0, 50]) == DiskState(50, 2, 0, 1, 1, 15.1);
  }

  ghost predicate Consecutive(offs: seq<int>) {
    forall i :: 0 < i < |offs| ==> offs[i] == offs[i - 1] + 1
  }

  /** A disk that sees strictly consecutive offsets seeks once and then only transfers. */
  lemma {:induction false} ConsecutiveCost(sp: Speed, offs: seq<int>)
    requires Consecutive(offs) && offs != [] && offs[0] >= 0
    ensures var d := Run(sp, offs);
            && d.currAddr == offs[|offs| - 1]
            && d.countRand == 1 && d.countNseq == 0 && d.countSeq == |offs| - 1
            && d.utilTime == sp.seekTime + |offs| as real * sp.xferTime
  {
    var n := |offs| - 1;
    if n > 0 {
      assert offs[..n][n - 1] == offs[n - 1];
      ConsecutiveCost(sp, offs[..n]);
      assert (n + 1) as real * sp.xferTime == n as real * sp.xferTime + sp.xferTime;
    } else {
      assert Run(sp, offs[..n]) == FRESH;
    }
  }

  // ---------- a contiguous run of blocks at level 0 ----------

  /** Reads and writes of the logical blocks from, from + 1, ... at level 0, in any mix. */
  ghost predicate ContiguousTrace(c: Config, trace: seq<IO>, from: int)
    requires c.Valid()
  {
    forall i :: 0 <= i < |trace| ==> trace[i].at == Bmap0(c, from + i)
  }

  /** How many blocks of each disk lie before block b. */
  ghost function BlocksBefore(c: Config, b: int, disk: int): int
    requires c.Valid()
  {
    var k := Split(b, c.numDisks, c.chunkSize);
    k.row * c.chunkSize + (if disk < k.slot then c.chunkSize else if disk == k.slot then k.coff else 0)
  }

  /** Going from b to b + 1 adds b itself to its own disk and nothing to the others. */
  lemma BlocksBeforeStep(c: Config, b: int, disk: int)
    requires c.Valid() && 0 <= disk < c.numDisks
    ensures BlocksBefore(c, b + 1, disk) == BlocksBefore(c, b, disk) + (if Bmap0(c, b).disk == disk then 1 else 0)
    ensures Bmap0(c, b).disk == disk ==> Bmap0(c, b).off == BlocksBefore(c, b, disk)
  {
    var n := c.numDisks;
    var cs := c.chunkSize;
    var k := Split(b, n, cs);
    JoinSplit(b, n, cs);
    SplitNext(b, n, cs);
    assert (k.row + 1) * cs == k.row * cs + cs;
  }

  /** The disk sees exactly the offsets from its first untouched block on, each once, in order. */
  lemma {:induction false} ContiguousOffsets(c: Config, trace: seq<IO>, from: int, disk: int)
    requires c.Valid() && ContiguousTrace(c, trace, from) && 0 <= disk < c.numDisks
    ensures var first := BlocksBefore(c, from, disk);
            var offs := OffsetsOn(trace, disk);
            && |offs| == BlocksBefore(c, from + |trace|, disk) - first
            && forall i :: 0 <= i < |offs| ==> offs[i] == first + i
  {
    if trace != [] {
      var n := |trace| - 1;
      ContiguousOffsets(c, trace[..n], from, disk);
      BlocksBeforeStep(c, from + n, disk);
    }
  }

  lemma BlocksBeforeNonNegative(c: Config, b: int, disk: int)
    requires c.Valid() && b >= 0
    ensures BlocksBefore(c, b, disk) >= 0
  {
    JoinSplit(b, c.numDisks, c.chunkSize);
    MulMonotone(0, Split(b, c.numDisks, c.chunkSize).row, c.chunkSize);
  }

  lemma RunFrom(sp: Speed, offs: seq<int>, first: nat, n: int)
    requires |offs| == n && forall i :: 0 <= i < |offs| ==> offs[i] == first + i
    ensures OneSeek(sp, Run(sp, offs), n)
  {
    CountsAddUp(sp, offs);
    if offs != [] {
      ConsecutiveCost(sp, offs);
    }
  }

  /** n accesses at the cost of one seek and n transfers; an idle disk costs nothing. */
  ghost predicate OneSeek(sp: Speed, d: DiskState, n: int) {
    && d.countIO == n && d.countNseq == 0
    && d.countRand == (if n == 0 then 0 else 1)
    && d.utilTime == if n == 0 then 0.0 else sp.seekTime + n as real * sp.xferTime
  }

  /** Contiguous striping, any start, chunk size and read/write mix: each disk used seeks exactly once. */
  lemma StripedRunCost(c: Config, sp: Speed, trace: seq<IO>, from: int, disk: int)
    requires c.Valid() && from >= 0 && ContiguousTrace(c, trace, from) && 0 <= disk < c.numDisks
    ensures OneSeek(sp, Run(sp, OffsetsOn(trace, disk)),
                    BlocksBefore(c, from + |trace|, disk) - BlocksBefore(c, from, disk))
  {
    ContiguousOffsets(c, trace, from, disk);
    BlocksBeforeNonNegative(c, from, disk);
    RunFrom(sp, OffsetsOn(trace, disk), BlocksBefore(c, from, disk),
            BlocksBefore(c, from + |trace|, disk) - BlocksBefore(c, from, disk));
  }

  lemma JoinShift(s: Coord, n: nat, cs: nat, k: nat)
    ensures Join(Coord(s.row + k, s.slot, s.coff), n, cs) == Join(s, n, cs) + k * (n * cs)
    ensures (s.row + k) * cs == s.row * cs + k * cs
  {
    calc {
      ((s.row + k) * n + s.slot) * cs;
      ((s.row * n + s.slot) + k * n) * cs;
      (s.row * n + s.slot) * cs + (k * n) * cs;
      (s.row * n + s.slot) * cs + k * (n * cs);
    }
  }

  /** After whole rows of chunks every disk has had the same number of blocks. */
  lemma WholeRows(c: Config, from: int, k: nat, rowSize: nat, disk: int)
    requires c.Valid() && rowSize == c.numDisks * c.chunkSize
    ensures BlocksBefore(c, from + k * rowSize, disk) == BlocksBefore(c, from, disk) + k * c.chunkSize
  {
    var s := Split(from, c.numDisks, c.chunkSize);
    JoinSplit(from, c.numDisks, c.chunkSize);
    JoinShift(s, c.numDisks, c.chunkSize, k);
    SplitJoin(Coord(s.row + k, s.slot, s.coff), c.numDisks, c.chunkSize);
  }

  /** A run of k * numDisks * chunkSize blocks takes every disk exactly one seek and k * chunkSize transfers. */
  lemma StripedFullRows(c: Config, sp: Speed, trace: seq<IO>, from: int, k: nat, disk: int)
    requires c.Valid() && from >= 0 && ContiguousTrace(c, trace, from) && 0 <= disk < c.numDisks
    requires k >= 1 && |trace| == k * (c.numDisks * c.chunkSize)
    ensures OneSeek(sp, Run(sp, OffsetsOn(trace, disk)), k * c.chunkSize)
  {
    StripedRunCost(c, sp, trace, from, disk);
    WholeRows(c, from, k, c.numDisks * c.chunkSize, disk);
  }
}
