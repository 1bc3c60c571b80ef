/** The disk and raid objects of raid.py, updated in place. */
module RaidArray {
  import opened Arithmetic
  import opened RaidLayout
  import opened RaidLayoutTheorems
  import opened RaidPlan
  import opened DiskTiming
  import opened Redundancy
  import opened RaidContents

  class Disk {
    const speed: Speed
    var currAddr: int
    var countIO: nat
    var countSeq: nat
    var countNseq: nat
    var countRand: nat
    var utilTime: real

    function State(): DiskState
      reads this
    {
      DiskState(currAddr, countIO, countSeq, countNseq, countRand, utilTime)
    }

    constructor (speed: Speed)
      ensures this.speed == speed && State() == FRESH
    {
      this.speed := speed;
      currAddr := -10000;
      countIO, countSeq, countNseq, countRand := 0, 0, 0, 0;
      utilTime := 0.0;
    }

    method Enqueue(addr: int)
      requires addr < BLOCKS_PER_DISK
      modifies this
      ensures State() == Access(speed, old(State()), addr)
    {
      countIO := countIO + 1;
      var currTrack := currAddr / NUM_TRACKS;
      var newTrack := addr / NUM_TRACKS;
      var diff := addr - currAddr;
      if diff < 0 {
        diff := -diff;
      }
      if currTrack == newTrack || diff < BLOCKS_PER_TRACK {
        if diff == 1 {
          countSeq := countSeq + 1;
        } else {
          countNseq := countNseq + 1;
        }
        utilTime := utilTime + diff as real * speed.xferTime;
      } else {
        countRand := countRand + 1;
        utilTime := utilTime + (speed.seekTime + speed.xferTime);
      }
      currAddr := addr;
    }

    method Go() returns (t: real)
      ensures t == utilTime
    {
      t := utilTime;
    }
  }

  /** One logical request; data(b) is what a write puts into block b. */
  datatype Request = Request(addr: nat, size: nat, isWrite: bool, data: int -> Block) {
    ghost predicate Covers(b: int) { addr <= b < addr + size }
  }

  /** The flat block store the array stands for: what the last write covering b put there. */
  ghost function LastWritten(c: Config, s: Store, reqs: seq<Request>, b: int): Block
    requires c.Valid()
  {
    if reqs == [] then Logical(c, s, b)
    else
      var r := reqs[|reqs| - 1];
      if r.isWrite && r.Covers(b) then r.data(b) else LastWritten(c, s, reqs[..|reqs| - 1], b)
  }

  /** The I/Os of a list of requests, one after another. */
  ghost function PlanOf(c: Config, reqs: seq<Request>): seq<IO>
    requires c.Valid()
  {
    if reqs == [] then []
    else
      var r := reqs[|reqs| - 1];
      PlanOf(c, reqs[..|reqs| - 1]) + RequestPlan(c, r.addr, r.size, r.isWrite)
  }

  /** What the requests were answered: each read fetched what was last written. */
  ghost predicate Answers(c: Config, s: Store, reqs: seq<Request>, got: seq<seq<Block>>)
    requires c.Valid()
  {
    && |got| == |reqs|
    && forall i :: 0 <= i < |reqs| && !reqs[i].isWrite ==>
         && |got[i]| == reqs[i].size
         && forall j :: 0 <= j < reqs[i].size ==> got[i][j] == LastWritten(c, s, reqs[..i], reqs[i].addr + j)
  }

  class Raid {
    const c: Config
    const disks: seq<Disk>
    ghost var trace: seq<IO>
    ghost var store: Store

    ghost predicate Valid()
      reads this, disks
    {
      && c.Valid()
      && |disks| == c.numDisks
      && (forall i, j :: 0 <= i < j < |disks| ==> disks[i] != disks[j])
      && (forall d :: 0 <= d < |disks| ==>
            disks[d].speed == DEFAULT_SPEED && disks[d].State() == Run(DEFAULT_SPEED, OffsetsOn(trace, d)))
    }

    constructor (c: Config, ghost contents: Store)
      requires c.Valid()
      ensures Valid() && this.c == c && trace == [] && store == contents && fresh(disks)
    {
      this.c := c;
      var ds: seq<Disk> := [];
      for i := 0 to c.numDisks
        invariant |ds| == i && fresh(ds)
        invariant forall k :: 0 <= k < i ==> ds[k].speed == DEFAULT_SPEED && ds[k].State() == FRESH
        invariant forall k, l :: 0 <= k < l < i ==> ds[k] != ds[l]
      {
        var d := new Disk(DEFAULT_SPEED);
        ds := ds + [d];
      }
      disks := ds;
      trace := [];
      store := contents;
    }

    /** One access by one disk extends the trace and leaves the other disks alone. */
    method DoSingleIO(io: IO)
      requires Valid() && 0 <= io.at.disk < c.numDisks && io.at.off < BLOCKS_PER_DISK
      modifies this`trace, disks
      ensures Valid() && trace == old(trace) + [io]
    {
      var d := io.at.disk;
      disks[d].Enqueue(io.at.off);
      trace := trace + [io];
      forall e | 0 <= e < |disks|
        ensures disks[e].State() == Run(DEFAULT_SPEED, OffsetsOn(trace, e))
      {
        OffsetsOnStep(old(trace), io, e);
        RunStep(DEFAULT_SPEED, OffsetsOn(old(trace), e), io.at.off);
      }
    }

    method DoSingleRead(at: Loc) returns (ghost v: Block)
      requires Valid() && 0 <= at.disk < c.numDisks && at.off < BLOCKS_PER_DISK
      modifies this`trace, disks
      ensures Valid() && trace == old(trace) + [Read(at)] && v == store[at]
    {
      DoSingleIO(Read(at));
      v := store[at];
    }

    method DoSingleWrite(at: Loc, ghost v: Block)
      requires Valid() && 0 <= at.disk < c.numDisks && at.off < BLOCKS_PER_DISK
      modifies this`trace, this`store, disks
      ensures Valid() && trace == old(trace) + [Write(at)] && store == old(store)[at := v]
    {
      DoSingleIO(Write(at));
      store := store[at := v];
    }

    /** Completion time: the busiest disk. */
    method Go() returns (tmax: real)
      requires Valid()
      ensures tmax >= 0.0
      ensures forall d :: 0 <= d < |disks| ==> disks[d].utilTime <= tmax
      ensures tmax == 0.0 || exists d :: 0 <= d < |disks| && disks[d].utilTime == tmax
    {
      tmax := 0.0;
      for d := 0 to c.numDisks
        invariant tmax >= 0.0
        invariant forall e :: 0 <= e < d ==> disks[e].utilTime <= tmax
        invariant tmax == 0.0 || exists e :: 0 <= e < |disks| && disks[e].utilTime == tmax
      {
        var t := disks[d].Go();
        if t > tmax {
          tmax := t;
        }
      }
    }

    /** What each disk has cost so far, from the offsets of its I/Os alone. */
    lemma DiskCosts(d: nat)
      requires Valid() && d < |disks|
      ensures var offs := OffsetsOn(trace, d);
              && disks[d].countIO == |offs| && disks[d].countRand == FarAccesses(offs, |offs|)
              && disks[d].utilTime == FarAccesses(offs, |offs|) as real * 10.1
                                      + NearDistance(offs, |offs|) as real * 0.1
    {
      var offs := OffsetsOn(trace, d);
      assert disks[d].State() == Run(DEFAULT_SPEED, offs);
      CountsAddUp(DEFAULT_SPEED, offs);
      CostOfRun(DEFAULT_SPEED, offs);
    }

    // ---------- reads, and writes without redundancy ----------

    /** Read a run of blocks through the level's map; used by levels 0, 4 and 5. */
    method ReadRun(addr: nat, size: nat) returns (ghost got: seq<Block>)
      requires Valid() && Fits(ReadBlocks(c, addr, addr + size), BLOCKS_PER_DISK)
      modifies this`trace, disks
      ensures Valid() && trace == old(trace) + ReadBlocks(c, addr, addr + size)
      ensures |got| == size && forall j :: 0 <= j < size ==> got[j] == Logical(c, store, addr + j)
    {
      got := [];
      for b := addr to addr + size
        invariant Valid() && trace == old(trace) + ReadBlocks(c, addr, b)
        invariant |got| == b - addr && forall j :: 0 <= j < |got| ==> got[j] == Logical(c, store, addr + j)
      {
        assert ReadBlocks(c, addr, addr + size)[b - addr] == Read(Bmap(c, b));
        HoldsBmap(c, b);
        ghost var v := DoSingleRead(Bmap(c, b));
        got := got + [v];
        assert ReadBlocks(c, addr, b + 1) == ReadBlocks(c, addr, b) + [Read(Bmap(c, b))];
      }
    }

    method Enqueue0(addr: nat, size: nat, isWrite: bool, ghost data: int -> Block) returns (ghost got: seq<Block>)
      requires Valid() && c.level.Raid0?
      requires Fits(RequestPlan(c, addr, size, isWrite), BLOCKS_PER_DISK)
      modifies this`trace, this`store, disks
      ensures Valid() && trace == old(trace) + RequestPlan(c, addr, size, isWrite)
      ensures !isWrite ==> store == old(store) && |got| == size
      ensures !isWrite ==> forall j :: 0 <= j < size ==> got[j] == Logical(c, old(store), addr + j)
      ensures isWrite ==> Stored(c, old(store), store, data, addr, addr + size)
    {
      got := [];
      for b := addr to addr + size
        invariant Valid()
        invariant trace == old(trace) + if isWrite then WriteBlocks(c, addr, b) else ReadBlocks(c, addr, b)
        invariant !isWrite ==> store == old(store) && |got| == b - addr
        invariant !isWrite ==> forall j :: 0 <= j < |got| ==> got[j] == Logical(c, store, addr + j)
        invariant isWrite ==> Stored(c, old(store), store, data, addr, b)
      {
        var at := Bmap0(c, b);
        HoldsBmap(c, b);
        if isWrite {
          assert WriteBlocks(c, addr, addr + size)[b - addr] == Write(at);
          OnlyThisBlock(c, b);
          DoSingleWrite(at, data(b));
          assert WriteBlocks(c, addr, b + 1) == WriteBlocks(c, addr, b) + [Write(at)];
        } else {
          assert ReadBlocks(c, addr, addr + size)[b - addr] == Read(at);
          ghost var v := DoSingleRead(at);
          got := got + [v];
          assert ReadBlocks(c, addr, b + 1) == ReadBlocks(c, addr, b) + [Read(at)];
        }
      }
    }

    // ---------- mirroring ----------

    /** Write both copies of a block. */
    method WriteCopies(b: nat, ghost data: int -> Block)
      requires Valid() && c.level.Raid1? && Fits(MirrorStep(c, b, true), BLOCKS_PER_DISK)
      modifies this`trace, this`store, disks
      ensures Valid() && trace == old(trace) + MirrorStep(c, b, true)
      ensures Stored(c, old(store), store, data, b, b + 1)
      ensures Redundant(c, old(store)) ==> Redundant(c, store)
    {
      var (disk1, disk2) := Bmap1(c, b);
      assert MirrorStep(c, b, true)[0].at == disk1;
      HoldsBmap(c, b);
      OnlyThisBlock(c, b);
      DoSingleWrite(disk1, data(b));
      DoSingleWrite(disk2, data(b));
    }

    /** Read a block from the copy that the parity of its offset selects. */
    method ReadCopy(b: nat) returns (ghost v: Block)
      requires Valid() && c.level.Raid1? && Fits(MirrorStep(c, b, false), BLOCKS_PER_DISK)
      modifies this`trace, disks
      ensures Valid() && trace == old(trace) + MirrorStep(c, b, false)
      ensures Redundant(c, store) ==> v == Logical(c, store, b)
    {
      var (disk1, disk2) := Bmap1(c, b);
      assert MirrorStep(c, b, false)[0].at.off == disk1.off;
      HoldsBmap(c, b);
      v := DoSingleRead(if disk1.off % 2 == 0 then disk1 else disk2);
    }

    /** One block of a mirrored request. */
    method EnqueueMirrored(b: nat, isWrite: bool, ghost data: int -> Block) returns (ghost v: Block)
      requires Valid() && c.level.Raid1? && Fits(MirrorStep(c, b, isWrite), BLOCKS_PER_DISK)
      modifies this`trace, this`store, disks
      ensures Valid() && trace == old(trace) + MirrorStep(c, b, isWrite)
      ensures if isWrite then Stored(c, old(store), store, data, b, b + 1) else store == old(store)
      ensures Redundant(c, old(store)) ==> Redundant(c, store) && (!isWrite ==> v == Logical(c, store, b))
    {
      v := {};
      if isWrite {
        WriteCopies(b, data);
      } else {
        v := ReadCopy(b);
      }
    }

    method Enqueue1(addr: nat, size: nat, isWrite: bool, ghost data: int -> Block) returns (ghost got: seq<Block>)
      requires Valid() && c.level.Raid1?
      requires Fits(RequestPlan(c, addr, size, isWrite), BLOCKS_PER_DISK)
      modifies this`trace, this`store, disks
      ensures Valid() && trace == old(trace) + RequestPlan(c, addr, size, isWrite)
      ensures !isWrite ==> store == old(store) && |got| == size
      ensures !isWrite && Redundant(c, old(store)) ==>
                forall j :: 0 <= j < size ==> got[j] == Logical(c, old(store), addr + j)
      ensures isWrite ==> Stored(c, old(store), store, data, addr, addr + size)
      ensures Redundant(c, old(store)) ==> Redundant(c, store)
    {
      got := [];
      ghost var s := store;
      for b := addr to addr + size
        invariant Valid() && trace == old(trace) + MirrorPlan(c, addr, b - addr, isWrite)
        invariant MirroredTo(c, s, store, addr, b, isWrite, data, got)
      {
        FitsMirror(c, addr, b - addr, size, isWrite, BLOCKS_PER_DISK);
        MirrorPlanStep(c, addr, b, isWrite, old(trace));
        ghost var t := store;
        ghost var v := EnqueueMirrored(b, isWrite, data);
        MirroredStep(c, s, t, store, addr, b, isWrite, data, got, v);
        got := if isWrite then [] else got + [v];
      }
    }

    // ---------- parity ----------

    /** Read a run of blocks of one stripe, keeping their values. */
    method ReadPart(stripe: int, lo: int, hi: int) returns (ghost read: map<Loc, Block>)
      requires Valid() && c.HasParity() && InStripe(c, stripe, lo, hi)
      requires Fits(ReadBlocks(c, lo, hi), BLOCKS_PER_DISK)
      modifies this`trace, disks
      ensures Valid() && trace == old(trace) + ReadBlocks(c, lo, hi)
      ensures forall l :: l in read ==> read[l] == store[l]
      ensures forall b :: lo <= b < hi ==> Bmap(c, b) in read
    {
      read := map[];
      for voff := lo to hi
        invariant Valid() && trace == old(trace) + ReadBlocks(c, lo, voff)
        invariant forall l :: l in read ==> read[l] == store[l]
        invariant forall b :: lo <= b < voff ==> Bmap(c, b) in read
      {
        var at := Bmap(c, voff);
        NextRead(c, stripe, lo, hi, voff);
        ghost var v := DoSingleRead(at);
        read := read[at := v];
      }
    }

    /** The first loop of the subtractive branch: read the run and list its offsets. */
    method ReadListed(stripe: int, begin: int, end: int) returns (offList: seq<int>, ghost read: map<Loc, Block>)
      requires Valid() && c.HasParity() && InStripe(c, stripe, begin, end)
      requires Fits(ReadBlocks(c, begin, end), BLOCKS_PER_DISK)
      modifies this`trace, disks
      ensures Valid() && trace == old(trace) + ReadBlocks(c, begin, end)
      ensures offList == Touched(c, begin, end)
      ensures forall l :: l in read ==> read[l] == store[l]
      ensures forall b :: begin <= b < end ==> Bmap(c, b) in read
    {
      read := map[];
      offList := [];
      for voff := begin to end
        invariant Valid() && trace == old(trace) + ReadBlocks(c, begin, voff)
        invariant offList == Touched(c, begin, voff)
        invariant forall l :: l in read ==> read[l] == store[l]
        invariant forall b :: begin <= b < voff ==> Bmap(c, b) in read
      {
        var at := Bmap(c, voff);
        NextRead(c, stripe, begin, end, voff);
        ghost var v := DoSingleRead(at);
        read := read[at := v];
        TouchedStep(c, stripe, begin, voff);
        if at.off !in offList {
          offList := offList + [at.off];
        }
      }
    }

    /** The second loop of the subtractive branch: read the listed parity blocks. */
    method ReadParity(pdisk: int, offList: seq<int>) returns (ghost read: map<Loc, Block>)
      requires Valid() && 0 <= pdisk < c.numDisks && Fits(ReadAt(pdisk, offList), BLOCKS_PER_DISK)
      modifies this`trace, disks
      ensures Valid() && trace == old(trace) + ReadAt(pdisk, offList)
      ensures forall l :: l in read ==> read[l] == store[l]
      ensures forall off :: off in offList ==> Loc(pdisk, off) in read
    {
      read := map[];
      for i := 0 to |offList|
        invariant Valid() && trace == old(trace) + ReadAt(pdisk, offList[..i])
        invariant forall l :: l in read ==> read[l] == store[l]
        invariant forall off :: off in offList[..i] ==> Loc(pdisk, off) in read
      {
        var at := Loc(pdisk, offList[i]);
        assert ReadAt(pdisk, offList)[i] == Read(at);
        ghost var v := DoSingleRead(at);
        read := read[at := v];
        assert offList[..i + 1] == offList[..i] + [offList[i]];
        assert ReadAt(pdisk, offList[..i + 1]) == ReadAt(pdisk, offList[..i]) + [Read(at)];
      }
      assert offList[..|offList|] == offList;
    }

    /** The reads that precede a partial-stripe write, by the branch the program takes. */
    method ReadForParity(stripe: int, begin: int, end: int, pdisk: int) returns (ghost read: map<Loc, Block>)
      requires Valid() && c.HasParity() && InStripe(c, stripe, begin, end) && pdisk == Pmap(c, stripe)
      requires Fits(PartialReads(c, stripe, begin, end), BLOCKS_PER_DISK)
      modifies this`trace, disks
      ensures Valid() && trace == old(trace) + PartialReads(c, stripe, begin, end)
      ensures ReadPhase(c, store, stripe, begin, end, read)
    {
      var numWrites := end - begin;
      if numWrites + 1 <= c.BlocksInStripe() - numWrites {
        FitsParts(ReadBlocks(c, begin, end), ReadAt(pdisk, Touched(c, begin, end)), BLOCKS_PER_DISK);
        PmapValue(c, stripe);
        var offList;
        offList, read := ReadListed(stripe, begin, end);
        ghost var more := ReadParity(pdisk, offList);
        read := read + more;
      } else {
        var stripeBegin := stripe * c.BlocksInStripe();
        var stripeEnd := stripeBegin + c.BlocksInStripe();
        FitsParts(ReadBlocks(c, stripeBegin, begin), ReadBlocks(c, end, stripeEnd), BLOCKS_PER_DISK);
        read := ReadPart(stripe, stripeBegin, begin);
        ghost var more := ReadPart(stripe, end, stripeEnd);
        read := read + more;
      }
    }

    /** The first loop of the write phase: write the run and list its offsets. */
    method WriteListed(stripe: int, begin: int, end: int, ghost data: int -> Block)
      returns (offList: seq<int>, ghost written: map<Loc, Block>)
      requires Valid() && c.HasParity() && InStripe(c, stripe, begin, end)
      requires Fits(WriteBlocks(c, begin, end), BLOCKS_PER_DISK)
      modifies this`trace, this`store, disks
      ensures Valid() && trace == old(trace) + WriteBlocks(c, begin, end)
      ensures offList == Touched(c, begin, end)
      ensures RunData(c, written, data, begin, end) && Overwritten(old(store), store, written)
    {
      written := map[];
      offList := [];
      StripePositive(c);
      MulMonotone(0, stripe, c.BlocksInStripe());
      for voff := begin to end
        invariant Valid() && trace == old(trace) + WriteBlocks(c, begin, voff)
        invariant offList == Touched(c, begin, voff)
        invariant RunData(c, written, data, begin, voff) && Overwritten(old(store), store, written)
      {
        var at := Bmap(c, voff);
        InStripeBlock(c, stripe, voff);
        assert WriteBlocks(c, begin, end)[voff - begin] == Write(at);
        DoSingleWrite(at, data(voff));
        RunDataStep(c, written, data, begin, voff);
        written := written[at := data(voff)];
        TouchedStep(c, stripe, begin, voff);
        if at.off !in offList {
          offList := offList + [at.off];
        }
        assert WriteBlocks(c, begin, voff + 1) == WriteBlocks(c, begin, voff) + [Write(at)];
      }
    }

    /** The second loop of the write phase: parity, computed only from what was read and written. */
    method WriteParity(stripe: int, begin: int, end: int, pdisk: int, offList: seq<int>,
                       ghost read: map<Loc, Block>, ghost written: map<Loc, Block>)
      returns (ghost parity: map<int, Block>)
      requires Valid() && c.HasParity() && InStripe(c, stripe, begin, end) && pdisk == Pmap(c, stripe)
      requires Fits(WriteAt(pdisk, offList), BLOCKS_PER_DISK)
      requires forall off :: off in offList ==>
                 ParityInputs(Subtractive(c, begin, end), read, written, pdisk, off, c.numDisks)
      modifies this`trace, this`store, disks
      ensures Valid() && trace == old(trace) + WriteAt(pdisk, offList)
      ensures forall o :: o in parity <==> o in offList
      ensures ParityComputed(c, stripe, begin, end, read, written, parity)
      ensures ParityWritten(old(store), store, pdisk, parity)
    {
      parity := map[];
      PmapValue(c, stripe);
      for i := 0 to |offList|
        invariant Valid() && trace == old(trace) + WriteAt(pdisk, offList[..i])
        invariant forall o :: o in parity <==> o in offList[..i]
        invariant ParityComputed(c, stripe, begin, end, read, written, parity)
        invariant ParityWritten(old(store), store, pdisk, parity)
      {
        var at := Loc(pdisk, offList[i]);
        assert WriteAt(pdisk, offList)[i] == Write(at);
        ghost var v := NewParity(Subtractive(c, begin, end), read, written, pdisk, offList[i], c.numDisks);
        ParityStep(c, stripe, begin, end, read, written, old(store), store, parity, offList[i]);
        DoSingleWrite(at, v);
        parity := parity[offList[i] := v];
        assert offList[..i + 1] == offList[..i] + [offList[i]];
        assert WriteAt(pdisk, offList[..i + 1]) == WriteAt(pdisk, offList[..i]) + [Write(at)];
      }
      assert offList[..|offList|] == offList;
    }

    /** The parity half of the write phase, after the data of the run has been written over contents s. */
    method FinishParity(stripe: int, begin: int, end: int, pdisk: int, offList: seq<int>, ghost s: Store,
                        ghost data: int -> Block, ghost read: map<Loc, Block>, ghost written: map<Loc, Block>)
      requires Valid() && c.HasParity() && InStripe(c, stripe, begin, end) && pdisk == Pmap(c, stripe)
      requires offList == Touched(c, begin, end) && Fits(WriteAt(pdisk, offList), BLOCKS_PER_DISK)
      requires ReadPhase(c, s, stripe, begin, end, read)
      requires RunData(c, written, data, begin, end) && Overwritten(s, store, written)
      modifies this`trace, this`store, disks
      ensures Valid() && trace == old(trace) + WriteAt(pdisk, offList)
      ensures ParityConsistent(c, s) ==> ParityConsistent(c, store)
      ensures Stored(c, s, store, data, begin, end)
    {
      ghost var mid := store;
      ReadPhaseSuffices(c, s, stripe, begin, end, data, read, written);
      ghost var parity := WriteParity(stripe, begin, end, pdisk, offList, read, written);
      PartialWriteCorrect(c, s, mid, store, stripe, begin, end, data, read, written, parity);
    }

    /** The writes of a partial-stripe write, given what the reads fetched. */
    method WriteWithParity(stripe: int, begin: int, end: int, pdisk: int, ghost data: int -> Block,
                           ghost read: map<Loc, Block>)
      requires Valid() && c.HasParity() && InStripe(c, stripe, begin, end) && pdisk == Pmap(c, stripe)
      requires ReadPhase(c, store, stripe, begin, end, read)
      requires Fits(WriteBlocks(c, begin, end), BLOCKS_PER_DISK)
      requires Fits(WriteAt(pdisk, Touched(c, begin, end)), BLOCKS_PER_DISK)
      modifies this`trace, this`store, disks
      ensures Valid() && trace == old(trace) + PartialWrites(c, stripe, begin, end)
      ensures old(ParityConsistent(c, store)) ==> ParityConsistent(c, store)
      ensures Stored(c, old(store), store, data, begin, end)
    {
      ghost var s := store;
      var offList;
      ghost var written;
      offList, written := WriteListed(stripe, begin, end, data);
      FinishParity(stripe, begin, end, pdisk, offList, s, data, read, written);
    }

    /** Write some blocks of one stripe: new data, nothing else, and parity stays right. */
    method DoPartialWrite(stripe: int, begin: int, end: int, ghost data: int -> Block)
      requires Valid() && c.HasParity() && InStripe(c, stripe, begin, end)
      requires Fits(PartialPlan(c, stripe, begin, end), BLOCKS_PER_DISK)
      modifies this`trace, this`store, disks
      ensures Valid() && trace == old(trace) + PartialPlan(c, stripe, begin, end)
      ensures PartialTraffic(c, trace[|old(trace)|..], stripe, begin, end)
      ensures old(ParityConsistent(c, store)) ==> ParityConsistent(c, store)
      ensures Stored(c, old(store), store, data, begin, end)
    {
      var pdisk := Pmap(c, stripe);
      FitsParts(PartialReads(c, stripe, begin, end), PartialWrites(c, stripe, begin, end), BLOCKS_PER_DISK);
      FitsParts(WriteBlocks(c, begin, end), WriteAt(pdisk, Touched(c, begin, end)), BLOCKS_PER_DISK);
      ghost var read := ReadForParity(stripe, begin, end, pdisk);
      WriteWithParity(stripe, begin, end, pdisk, data, read);
      PlanTraffic(c, stripe, begin, end, old(trace), trace);
    }

    /** The state of the stripe loop when it reaches a stripe, having started with contents s0 and I/Os t0. */
    ghost predicate StripesDone(addr: nat, size: nat, data: int -> Block, t0: seq<IO>, s0: Store,
                                stripe: int, begin: int, left: int)
      requires c.Valid() && c.HasParity() && c.BlocksInStripe() >= 1
      reads this
    {
      && left == addr + size - begin && begin == LoopBegin(c, addr, size, stripe)
      && trace == t0 + WritePlan(c, addr, size, FirstStripe(c, addr), stripe)
      && (ParityConsistent(c, s0) ==> ParityConsistent(c, store))
      && Stored(c, s0, store, data, addr, begin)
    }

    /** Where the piece of this stripe ends, with left blocks still to write from begin on. */
    method EndOfPiece(stripe: int, begin: int, left: int) returns (end: int)
      ensures end == Min(begin + Min(left, c.BlocksInStripe()), stripe * c.BlocksInStripe() + c.BlocksInStripe())
    {
      var endOfStripe := stripe * c.BlocksInStripe() + c.BlocksInStripe();
      if left >= c.BlocksInStripe() {
        end := begin + c.BlocksInStripe();
      } else {
        end := begin + left;
      }
      if end >= endOfStripe {
        end := endOfStripe;
      }
    }

    /** One round of the stripe loop: cut off this stripe's piece and write it. */
    method WriteStripe(addr: nat, size: nat, stripe: int, begin: int, left: int, ghost data: int -> Block,
                       ghost t0: seq<IO>, ghost s0: Store)
      returns (end: int)
      requires Valid() && c.HasParity() && c.BlocksInStripe() >= 1
      requires FirstStripe(c, addr) <= stripe <= FinalStripe(c, addr, size)
      requires StripesDone(addr, size, data, t0, s0, stripe, begin, left)
      requires Fits(StripesPlan(c, addr, size), BLOCKS_PER_DISK)
      modifies this`trace, this`store, disks
      ensures Valid() && StripesDone(addr, size, data, t0, s0, stripe + 1, end, left - (end - begin))
    {
      end := EndOfPiece(stripe, begin, left);
      StripeCut(c, addr, size, stripe, end);
      StripePlanFits(c, addr, size, stripe);
      DoPartialWrite(stripe, begin, end, data);
      WritePlanStep(c, addr, size, FirstStripe(c, addr), stripe, t0);
    }

    lemma StripesBegin(addr: nat, size: nat, data: int -> Block)
      requires c.Valid() && c.HasParity() && c.BlocksInStripe() >= 1
      ensures StripesDone(addr, size, data, trace, store, FirstStripe(c, addr), addr, size)
      ensures FirstStripe(c, addr) <= FinalStripe(c, addr, size) + 1
    {
      StripeRange(c, addr, size);
      assert trace + WritePlan(c, addr, size, FirstStripe(c, addr), FirstStripe(c, addr)) == trace;
    }

    /** Past the final stripe nothing is left. */
    lemma StripesEnd(addr: nat, size: nat, data: int -> Block, t0: seq<IO>, s0: Store, begin: int, left: int)
      requires c.Valid() && c.HasParity() && c.BlocksInStripe() >= 1
      requires StripesDone(addr, size, data, t0, s0, FinalStripe(c, addr, size) + 1, begin, left)
      ensures left == 0 && trace == t0 + StripesPlan(c, addr, size)
      ensures ParityConsistent(c, s0) ==> ParityConsistent(c, store)
      ensures Stored(c, s0, store, data, addr, addr + size)
    {
    }

    /** The stripe loop of enqueue45. */
    method WriteStripes(addr: nat, size: nat, ghost data: int -> Block) returns (left: int)
      requires Valid() && c.HasParity() && c.BlocksInStripe() >= 1
      requires Fits(StripesPlan(c, addr, size), BLOCKS_PER_DISK)
      modifies this`trace, this`store, disks
      ensures Valid() && trace == old(trace) + StripesPlan(c, addr, size) && left == 0
      ensures old(ParityConsistent(c, store)) ==> ParityConsistent(c, store)
      ensures Stored(c, old(store), store, data, addr, addr + size)
    {
      var initStripe := FirstStripe(c, addr);
      var finalStripe := FinalStripe(c, addr, size);
      left := size;
      var begin := addr as int;
      ghost var t0, s0 := trace, store;
      StripesBegin(addr, size, data);
      for stripe := initStripe to finalStripe + 1
        invariant Valid() && StripesDone(addr, size, data, t0, s0, stripe, begin, left)
      {
        var end := WriteStripe(addr, size, stripe, begin, left, data, t0, s0);
        left := left - (end - begin);
        begin := end;
      }
      StripesEnd(addr, size, data, t0, s0, begin, left);
    }

    method Enqueue45(addr: nat, size: nat, isWrite: bool, ghost data: int -> Block) returns (ghost got: seq<Block>)
      requires Valid() && c.HasParity()
      requires Fits(RequestPlan(c, addr, size, isWrite), BLOCKS_PER_DISK)
      modifies this`trace, this`store, disks
      ensures Valid() && trace == old(trace) + RequestPlan(c, addr, size, isWrite)
      ensures !isWrite ==> store == old(store) && |got| == size
      ensures !isWrite ==> forall j :: 0 <= j < size ==> got[j] == Logical(c, old(store), addr + j)
      ensures isWrite ==> Stored(c, old(store), store, data, addr, addr + size)
      ensures Redundant(c, old(store)) ==> Redundant(c, store)
    {
      got := [];
      if !isWrite {
        got := ReadRun(addr, size);
      } else {
        StripePositive(c);
        var left := WriteStripes(addr, size, data);
      }
    }

    /**
     One logical request at any level: a write stores its data and nothing else, a read fetches what is
     stored, mirrors and parity stay right, and the physical I/Os are those of the plan.
     */
    method Enqueue(r: Request) returns (ghost got: seq<Block>)
      requires Valid()
      requires Fits(RequestPlan(c, r.addr, r.size, r.isWrite), BLOCKS_PER_DISK)
      modifies this`trace, this`store, disks
      ensures Valid() && trace == old(trace) + RequestPlan(c, r.addr, r.size, r.isWrite)
      ensures Traffic(c, trace[|old(trace)|..], r.addr, r.size, r.isWrite)
      ensures !r.isWrite ==> store == old(store) && |got| == r.size
      ensures !r.isWrite && Redundant(c, old(store)) ==>
                forall j :: 0 <= j < r.size ==> got[j] == Logical(c, old(store), r.addr + j)
      ensures forall b :: b >= 0 ==>
                Logical(c, store, b) == if r.isWrite && r.Covers(b) then r.data(b) else Logical(c, old(store), b)
      ensures Redundant(c, old(store)) ==> Redundant(c, store)
    {
      RequestTraffic(c, r.addr, r.size, r.isWrite);
      match c.level
      case Raid0 => got := Enqueue0(r.addr, r.size, r.isWrite, r.data);
      case Raid1 => got := Enqueue1(r.addr, r.size, r.isWrite, r.data);
      case _ => got := Enqueue45(r.addr, r.size, r.isWrite, r.data);
    }

    /**
     The main loop, for any list of requests: the array refines a flat block store, reads return the
     value last written, and the redundancy invariant holds at the end.
     */
    method ProcessRequests(reqs: seq<Request>) returns (ghost got: seq<seq<Block>>)
      requires Valid() && Redundant(c, store)
      requires forall r :: r in reqs ==> Fits(RequestPlan(c, r.addr, r.size, r.isWrite), BLOCKS_PER_DISK)
      modifies this`trace, this`store, disks
      ensures Valid() && Redundant(c, store) && trace == old(trace) + PlanOf(c, reqs)
      ensures Answers(c, old(store), reqs, got)
      ensures forall b :: b >= 0 ==> Logical(c, store, b) == LastWritten(c, old(store), reqs, b)
    {
      got := [];
      for i := 0 to |reqs|
        invariant Valid() && Redundant(c, store) && trace == old(trace) + PlanOf(c, reqs[..i])
        invariant Answers(c, old(store), reqs[..i], got)
        invariant forall b :: b >= 0 ==> Logical(c, store, b) == LastWritten(c, old(store), reqs[..i], b)
      {
        ghost var g := Enqueue(reqs[i]);
        PlanOfStep(c, reqs[..i], reqs[i], old(trace));
        AnswersStep(c, old(store), reqs[..i], reqs[i], got, g);
        got := got + [g];
        assert reqs[..i + 1] == reqs[..i] + [reqs[i]];
        assert reqs[..i + 1][..i] == reqs[..i];
      }
      assert reqs[..|reqs|] == reqs;
    }

    /**
     The sequential workload at level 0 on a fresh array: requests of one size, one after another, in any mix
     of reads and writes. Every disk used seeks once; over k whole rows of chunks go() is one seek and
     k * chunkSize transfers.
     */
    method SequentialWorkload(from: nat, size: nat, writes: seq<bool>, ghost k: nat) returns (t: real)
      requires Valid() && c.level.Raid0? && trace == []
      requires forall b :: from <= b < from + |writes| * size ==> Bmap0(c, b).off < BLOCKS_PER_DISK
      modifies this`trace, this`store, disks
      ensures Valid() && ContiguousTrace(c, trace, from) && |trace| == |writes| * size
      ensures forall d :: 0 <= d < |disks| ==>
                OneSeek(DEFAULT_SPEED, disks[d].State(), BlocksBefore(c, from + |trace|, d) - BlocksBefore(c, from, d))
      ensures k >= 1 && |trace| == k * (c.numDisks * c.chunkSize) ==>
                t == DEFAULT_SPEED.seekTime + (k * c.chunkSize) as real * DEFAULT_SPEED.xferTime
    {
      EnqueueSequence(from, size, writes);
      SeekOnce(from);
      t := Go();
      if k >= 1 && |trace| == k * (c.numDisks * c.chunkSize) {
        FullRows(k, from);
        assert disks[0].utilTime <= t;
      }
    }

    /** The request loop of the sequential workload. */
    method EnqueueSequence(from: nat, size: nat, writes: seq<bool>)
      requires Valid() && c.level.Raid0? && trace == []
      requires forall b :: from <= b < from + |writes| * size ==> Bmap0(c, b).off < BLOCKS_PER_DISK
      modifies this`trace, this`store, disks
      ensures Valid() && ContiguousTrace(c, trace, from) && |trace| == |writes| * size
    {
      var off := from;
      for i := 0 to |writes|
        invariant Valid() && off == from + |trace| && |trace| == i * size && ContiguousTrace(c, trace, from)
      {
        MulMonotone(i + 1, |writes|, size);
        assert (i + 1) * size == i * size + size;
        RowRequest(c, from, off, size, writes[i], trace);
        ghost var g := Enqueue(Request(off, size, writes[i], _ => {}));
        off := off + size;
      }
    }

    lemma SeekOnce(from: nat)
      requires Valid() && c.level.Raid0? && ContiguousTrace(c, trace, from)
      ensures forall d :: 0 <= d < |disks| ==>
                OneSeek(DEFAULT_SPEED, disks[d].State(), BlocksBefore(c, from + |trace|, d) - BlocksBefore(c, from, d))
    {
      forall d | 0 <= d < |disks|
        ensures OneSeek(DEFAULT_SPEED, disks[d].State(), BlocksBefore(c, from + |trace|, d) - BlocksBefore(c, from, d))
      {
        StripedRunCost(c, DEFAULT_SPEED, trace, from, d);
      }
    }

    lemma FullRows(k: nat, from: nat)
      requires Valid() && c.level.Raid0? && ContiguousTrace(c, trace, from)
      requires k >= 1 && |trace| == k * (c.numDisks * c.chunkSize)
      ensures |disks| >= 1 && DEFAULT_SPEED.seekTime + (k * c.chunkSize) as real * DEFAULT_SPEED.xferTime > 0.0
      ensures forall d :: 0 <= d < |disks| ==>
                disks[d].utilTime == DEFAULT_SPEED.seekTime + (k * c.chunkSize) as real * DEFAULT_SPEED.xferTime
    {
      MulMonotone(1, k, c.chunkSize);
      forall d | 0 <= d < |disks|
        ensures disks[d].utilTime == DEFAULT_SPEED.seekTime + (k * c.chunkSize) as real * DEFAULT_SPEED.xferTime
      {
        StripedFullRows(c, DEFAULT_SPEED, trace, from, k, d);
      }
    }
  }

  /** A level-0 request that starts where the trace ends continues it, and fits if its blocks do. */
  lemma RowRequest(c: Config, from: int, off: int, size: nat, isWrite: bool, before: seq<IO>)
    requires c.Valid() && c.level.Raid0? && ContiguousTrace(c, before, from) && off == from + |before|
    requires forall b :: off <= b < off + size ==> Bmap0(c, b).off < BLOCKS_PER_DISK
    ensures Fits(RequestPlan(c, off, size, isWrite), BLOCKS_PER_DISK)
    ensures |RequestPlan(c, off, size, isWrite)| == size
    ensures ContiguousTrace(c, before + RequestPlan(c, off, size, isWrite), from)
  {
    var plan := RequestPlan(c, off, size, isWrite);
    forall i | 0 <= i < |plan|
      ensures plan[i].at == Bmap0(c, off + i)
    {
      assert Bmap(c, off + i) == Bmap0(c, off + i);
    }
  }

  /** Distinct logical blocks live at distinct places. */
  lemma OnlyThisBlock(c: Config, b: int)
    requires c.Valid() && b >= 0
    ensures forall x :: x >= 0 && Bmap(c, x) == Bmap(c, b) ==> x == b
    ensures c.level.Raid1? ==> forall x :: x >= 0 && x != b ==>
              Bmap1(c, x).0 !in {Bmap1(c, b).0, Bmap1(c, b).1} && Bmap1(c, x).1 !in {Bmap1(c, b).0, Bmap1(c, b).1}
    ensures c.level.Raid1? ==> Bmap1(c, b).0 != Bmap1(c, b).1 && Bmap(c, b) == Bmap1(c, b).0
  {
    HoldsBmap(c, b);
    forall x | x >= 0
      ensures Holds(c, Bmap(c, x)) == Data(x)
      ensures 0 <= Bmap(c, x).disk < c.numDisks
      ensures c.level.Raid1? ==> 0 <= Bmap1(c, x).1.disk < c.numDisks && Holds(c, Bmap1(c, x).1) == Data(x)
    {
      HoldsBmap(c, x);
    }
  }

  /** Where the stripe loop's begin stands when it reaches a stripe. */
  ghost function LoopBegin(c: Config, addr: int, size: int, stripe: int): int
    requires c.BlocksInStripe() != 0
  {
    if stripe <= FinalStripe(c, addr, size) then PieceBegin(c, addr, stripe) else addr + size
  }

  lemma StripePlanFits(c: Config, addr: nat, size: nat, stripe: int)
    requires c.Valid() && c.HasParity() && c.BlocksInStripe() >= 1
    requires FirstStripe(c, addr) <= stripe <= FinalStripe(c, addr, size)
    requires Fits(StripesPlan(c, addr, size), BLOCKS_PER_DISK)
    ensures Fits(PartialPlan(c, stripe, PieceBegin(c, addr, stripe), PieceEnd(c, addr, size, stripe)), BLOCKS_PER_DISK)
  {
    var first, last := FirstStripe(c, addr), FinalStripe(c, addr, size) + 1;
    assert StripesPlan(c, addr, size) == WritePlan(c, addr, size, first, last);
    FitsStripe(c, addr, size, first, stripe, last, BLOCKS_PER_DISK);
  }

  /** The next read of a run within a stripe. */
  lemma NextRead(c: Config, stripe: int, lo: int, hi: int, b: int)
    requires c.Valid() && c.HasParity() && InStripe(c, stripe, lo, hi) && lo <= b < hi
    requires Fits(ReadBlocks(c, lo, hi), BLOCKS_PER_DISK)
    ensures 0 <= Bmap(c, b).disk < c.numDisks && Bmap(c, b).off < BLOCKS_PER_DISK
    ensures ReadBlocks(c, lo, b + 1) == ReadBlocks(c, lo, b) + [Read(Bmap(c, b))]
  {
    InStripeBlock(c, stripe, b);
    assert ReadBlocks(c, lo, hi)[b - lo] == Read(Bmap(c, b));
  }

  lemma WritePlanStep(c: Config, addr: int, size: int, first: int, stripe: int, before: seq<IO>)
    requires c.Valid() && c.HasParity() && first <= stripe
    ensures before + WritePlan(c, addr, size, first, stripe + 1) ==
            before + WritePlan(c, addr, size, first, stripe)
            + PartialPlan(c, stripe, PieceBegin(c, addr, stripe), PieceEnd(c, addr, size, stripe))
  {
  }

  /** The loop starts at addr; only an empty request can have no stripes to visit. */
  lemma StripeRange(c: Config, addr: nat, size: nat)
    requires c.Valid() && c.HasParity() && c.BlocksInStripe() >= 1
    ensures FirstStripe(c, addr) <= FinalStripe(c, addr, size) + 1
    ensures size >= 1 ==> FirstStripe(c, addr) <= FinalStripe(c, addr, size)
    ensures LoopBegin(c, addr, size, FirstStripe(c, addr)) == addr
  {
    var n := c.BlocksInStripe();
    DivModParts(addr, n);
    DivModParts(addr + size - 1, n);
    var d := FinalStripe(c, addr, size) - FirstStripe(c, addr);
    assert FinalStripe(c, addr, size) * n == FirstStripe(c, addr) * n + d * n;
    if d <= -2 {
      MulMonotone(d, -2, n);
    }
    if d >= 0 {
      PiecesPartition(c, addr, size, FirstStripe(c, addr));
    }
  }

  /** The program's end is the end of the stripe's piece, and the next iteration starts there. */
  lemma StripeCut(c: Config, addr: nat, size: nat, stripe: int, end: int)
    requires c.Valid() && c.HasParity() && c.BlocksInStripe() >= 1
    requires FirstStripe(c, addr) <= stripe <= FinalStripe(c, addr, size)
    requires var begin := PieceBegin(c, addr, stripe);
             end == Min(begin + Min(addr + size - begin, c.BlocksInStripe()),
                        stripe * c.BlocksInStripe() + c.BlocksInStripe())
    ensures end == PieceEnd(c, addr, size, stripe) == LoopBegin(c, addr, size, stripe + 1)
    ensures InStripe(c, stripe, PieceBegin(c, addr, stripe), end)
    ensures addr <= PieceBegin(c, addr, stripe)
  {
    PiecesPartition(c, addr, size, stripe);
  }

  /** The blocks addr .. b of a mirrored request have been served, which began with contents s and has come to t. */
  ghost predicate MirroredTo(c: Config, s: Store, t: Store, addr: int, b: int, isWrite: bool, data: int -> Block,
                             got: seq<Block>)
    requires c.Valid()
  {
    if isWrite then Stored(c, s, t, data, addr, b) && (Redundant(c, s) ==> Redundant(c, t))
    else t == s && |got| == b - addr
         && (Redundant(c, s) ==> forall j :: 0 <= j < |got| ==> got[j] == Logical(c, s, addr + j))
  }

  lemma MirroredStep(c: Config, s: Store, t: Store, u: Store, addr: int, b: int, isWrite: bool, data: int -> Block,
                     got: seq<Block>, v: Block)
    requires c.Valid() && addr <= b && MirroredTo(c, s, t, addr, b, isWrite, data, got)
    requires if isWrite then Stored(c, t, u, data, b, b + 1) else u == t
    requires Redundant(c, t) ==> Redundant(c, u) && (!isWrite ==> v == Logical(c, u, b))
    ensures MirroredTo(c, s, u, addr, b + 1, isWrite, data, if isWrite then [] else got + [v])
  {
  }

  lemma MirrorPlanStep(c: Config, addr: int, b: int, isWrite: bool, before: seq<IO>)
    requires c.Valid() && c.level.Raid1? && addr <= b
    ensures before + MirrorPlan(c, addr, b + 1 - addr, isWrite) ==
            before + MirrorPlan(c, addr, b - addr, isWrite) + MirrorStep(c, b, isWrite)
  {
  }

  lemma PlanOfStep(c: Config, reqs: seq<Request>, r: Request, before: seq<IO>)
    requires c.Valid()
    ensures before + PlanOf(c, reqs + [r]) == before + PlanOf(c, reqs) + RequestPlan(c, r.addr, r.size, r.isWrite)
  {
    assert (reqs + [r])[..|reqs|] == reqs;
  }

  lemma AnswersStep(c: Config, s: Store, reqs: seq<Request>, r: Request, got: seq<seq<Block>>, g: seq<Block>)
    requires c.Valid() && Answers(c, s, reqs, got)
    requires !r.isWrite ==> |g| == r.size
    requires !r.isWrite ==> forall j :: 0 <= j < r.size ==> g[j] == LastWritten(c, s, reqs, r.addr + j)
    ensures Answers(c, s, reqs + [r], got + [g])
  {
    var all := reqs + [r];
    forall i | 0 <= i < |all|
      ensures all[..i] == if i < |reqs| then reqs[..i] else reqs
    {
    }
  }
}
