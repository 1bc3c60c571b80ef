/** Which physical I/Os a logical request turns into, and what they cost. */
module RaidPlan {
  import opened Arithmetic
  import opened RaidLayout
  import opened RaidLayoutTheorems

  datatype IO = Read(at: Loc) | Write(at: Loc)

  function ReadBlocks(c: Config, lo: int, hi: int): seq<IO>
    requires c.Valid()
  {
    seq(Max(hi - lo, 0), i => Read(Bmap(c, lo + i)))
  }

  function WriteBlocks(c: Config, lo: int, hi: int): seq<IO>
    requires c.Valid()
  {
    seq(Max(hi - lo, 0), i => Write(Bmap(c, lo + i)))
  }

  /** The distinct offsets of a run of blocks of one stripe: its first chunkSize blocks have them all. */
  function Touched(c: Config, lo: int, hi: int): seq<int>
    requires c.Valid()
  {
    seq(Max(Min(hi - lo, c.chunkSize), 0), i => Bmap(c, lo + i).off)
  }

  function ReadAt(disk: int, offs: seq<int>): seq<IO> {
    seq(|offs|, i requires 0 <= i < |offs| => Read(Loc(disk, offs[i])))
  }

  function WriteAt(disk: int, offs: seq<int>): seq<IO> {
    seq(|offs|, i requires 0 <= i < |offs| => Write(Loc(disk, offs[i])))
  }

  /** The program's test between its two ways of computing parity. */
  predicate Subtractive(c: Config, begin: int, end: int) {
    end - begin + 1 <= c.BlocksInStripe() - (end - begin)
  }

  function PartialReads(c: Config, stripe: int, begin: int, end: int): seq<IO>
    requires c.Valid() && c.HasParity()
  {
    if Subtractive(c, begin, end)
    then ReadBlocks(c, begin, end) + ReadAt(Pmap(c, stripe), Touched(c, begin, end))
    else ReadBlocks(c, stripe * c.BlocksInStripe(), begin)
         + ReadBlocks(c, end, stripe * c.BlocksInStripe() + c.BlocksInStripe())
  }

  function PartialWrites(c: Config, stripe: int, begin: int, end: int): seq<IO>
    requires c.Valid() && c.HasParity()
  {
    WriteBlocks(c, begin, end) + WriteAt(Pmap(c, stripe), Touched(c, begin, end))
  }

  /** The I/Os of one doPartialWrite. */
  function PartialPlan(c: Config, stripe: int, begin: int, end: int): seq<IO>
    requires c.Valid() && c.HasParity()
  {
    PartialReads(c, stripe, begin, end) + PartialWrites(c, stripe, begin, end)
  }

  /** begin .. end is a run of blocks of one stripe. */
  ghost predicate InStripe(c: Config, stripe: int, begin: int, end: int) {
    stripe >= 0 && stripe * c.BlocksInStripe() <= begin <= end <= stripe * c.BlocksInStripe() + c.BlocksInStripe()
  }

  /** The part of [addr, addr + size) that lies in a stripe. */
  function PieceBegin(c: Config, addr: int, stripe: int): int { Max(addr, stripe * c.BlocksInStripe()) }

  function PieceEnd(c: Config, addr: int, size: int, stripe: int): int {
    Min(addr + size, stripe * c.BlocksInStripe() + c.BlocksInStripe())
  }

  /** The I/Os of a level 4/5 write, for the stripes first .. last (last excluded). */
  function WritePlan(c: Config, addr: int, size: int, first: int, last: int): seq<IO>
    requires c.Valid() && c.HasParity()
    decreases last - first
  {
    if last <= first then []
    else WritePlan(c, addr, size, first, last - 1)
         + PartialPlan(c, last - 1, PieceBegin(c, addr, last - 1), PieceEnd(c, addr, size, last - 1))
  }

  /** One mirrored block: both copies written, or one of them read. */
  function MirrorStep(c: Config, b: int, isWrite: bool): seq<IO>
    requires c.Valid() && c.level.Raid1?
  {
    var (l1, l2) := Bmap1(c, b);
    if isWrite then [Write(l1), Write(l2)] else [Read(if l1.off % 2 == 0 then l1 else l2)]
  }

  function MirrorPlan(c: Config, addr: int, size: nat, isWrite: bool): seq<IO>
    requires c.Valid() && c.level.Raid1?
  {
    if size == 0 then []
    else MirrorPlan(c, addr, size - 1, isWrite) + MirrorStep(c, addr + size - 1, isWrite)
  }

  function FirstStripe(c: Config, addr: int): int
    requires c.BlocksInStripe() != 0
  {
    addr / c.BlocksInStripe()
  }

  function FinalStripe(c: Config, addr: int, size: int): int
    requires c.BlocksInStripe() != 0
  {
    (addr + size - 1) / c.BlocksInStripe()
  }

  lemma StripePositive(c: Config)
    requires c.Valid() && c.HasParity()
    ensures c.BlocksInStripe() >= 1
  {
    MulMonotone(1, c.numDisks - 1, c.chunkSize);
  }

  /** The I/Os of a level 4/5 write: every stripe from that of the first block to that of the last. */
  function StripesPlan(c: Config, addr: int, size: int): seq<IO>
    requires c.Valid() && c.HasParity() && c.BlocksInStripe() >= 1
  {
    WritePlan(c, addr, size, FirstStripe(c, addr), FinalStripe(c, addr, size) + 1)
  }

  /** The I/Os of a whole request. */
  function RequestPlan(c: Config, addr: int, size: nat, isWrite: bool): seq<IO>
    requires c.Valid()
  {
    match c.level
    case Raid0 => if isWrite then WriteBlocks(c, addr, addr + size) else ReadBlocks(c, addr, addr + size)
    case Raid1 => MirrorPlan(c, addr, size, isWrite)
    case _ =>
      StripePositive(c);
      if isWrite then StripesPlan(c, addr, size)
      else ReadBlocks(c, addr, addr + size)
  }

  // ---------- what a request is on the wire ----------

  /** One I/O per block, in order, where the layout put the block. */
  ghost predicate PlainTraffic(c: Config, ios: seq<IO>, addr: int, size: nat, isWrite: bool)
    requires c.Valid()
  {
    |ios| == size &&
    forall i :: 0 <= i < size ==> ios[i] == if isWrite then Write(Bmap(c, addr + i)) else Read(Bmap(c, addr + i))
  }

  /** The even disk of the pair that holds a mirrored block, and the offset on both. */
  ghost function PairOf(c: Config, b: int): Loc
    requires c.Valid() && c.level.Raid1?
  {
    Loc(2 * (b / c.chunkSize % (c.numDisks / 2)), b / c.chunkSize / (c.numDisks / 2) * c.chunkSize + b % c.chunkSize)
  }

  /** One read per block: even offsets from the even disk of the pair, odd offsets from the odd one. */
  ghost predicate BalancedReads(c: Config, ios: seq<IO>, addr: int, size: nat)
    requires c.Valid() && c.level.Raid1?
  {
    |ios| == size &&
    forall i :: 0 <= i < size ==>
      var at := PairOf(c, addr + i);
      ios[i].Read? && ios[i].at.off == at.off && ios[i].at.disk == at.disk + at.off % 2
  }

  /** Two writes per block, the even disk of the pair first. */
  ghost predicate DoubledWrites(c: Config, ios: seq<IO>, addr: int, size: nat)
    requires c.Valid() && c.level.Raid1?
  {
    |ios| == 2 * size &&
    forall i :: 0 <= i < size ==>
      var at := PairOf(c, addr + i);
      ios[2 * i] == Write(at) && ios[2 * i + 1] == Write(Loc(at.disk + 1, at.off))
  }

  /** The I/Os of a request, in order, for every kind but the parity writes. */
  ghost predicate Traffic(c: Config, ios: seq<IO>, addr: int, size: nat, isWrite: bool)
    requires c.Valid()
  {
    match c.level
    case Raid0 => PlainTraffic(c, ios, addr, size, isWrite)
    case Raid1 => if isWrite then DoubledWrites(c, ios, addr, size) else BalancedReads(c, ios, addr, size)
    case _ => isWrite || PlainTraffic(c, ios, addr, size, isWrite)
  }

  lemma {:induction false} MirrorReads(c: Config, addr: int, size: nat)
    requires c.Valid() && c.level.Raid1?
    ensures BalancedReads(c, MirrorPlan(c, addr, size, false), addr, size)
  {
    if size > 0 {
      MirrorReads(c, addr, size - 1);
    }
  }

  lemma {:induction false} MirrorWrites(c: Config, addr: int, size: nat)
    requires c.Valid() && c.level.Raid1?
    ensures DoubledWrites(c, MirrorPlan(c, addr, size, true), addr, size)
  {
    if size > 0 {
      MirrorWrites(c, addr, size - 1);
    }
  }

  lemma RequestTraffic(c: Config, addr: int, size: nat, isWrite: bool)
    requires c.Valid()
    ensures Traffic(c, RequestPlan(c, addr, size, isWrite), addr, size, isWrite)
  {
    if c.level.Raid1? {
      MirrorReads(c, addr, size);
      MirrorWrites(c, addr, size);
    }
  }

  // ---------- offsets within a stripe ----------

  lemma InStripeBlock(c: Config, stripe: int, b: int)
    requires c.Valid() && c.HasParity()
    requires stripe >= 0 && stripe * c.BlocksInStripe() <= b < stripe * c.BlocksInStripe() + c.BlocksInStripe()
    ensures b >= 0 && b / c.BlocksInStripe() == stripe
    ensures Bmap(c, b).off == stripe * c.chunkSize + b % c.chunkSize && Bmap(c, b).off / c.chunkSize == stripe
    ensures Bmap(c, b).off >= 0 && 0 <= Bmap(c, b).disk < c.numDisks
    ensures Bmap(c, b).disk != Pmap(c, stripe)
  {
    StripePositive(c);
    MulMonotone(0, stripe, c.BlocksInStripe());
    DivModUnique(b, c.BlocksInStripe(), stripe, b - stripe * c.BlocksInStripe());
    StripeOfBlock(c, b);
    DivModParts(Bmap(c, b).off, c.chunkSize);
    HoldsBmap(c, b);
  }

  /** Every block of the run has its offset in Touched, and Touched has no offset twice. */
  lemma TouchedCovers(c: Config, stripe: int, begin: int, end: int, b: int)
    requires c.Valid() && c.HasParity() && InStripe(c, stripe, begin, end) && begin <= b < end
    ensures Bmap(c, b).off in Touched(c, begin, end)
  {
    var cs := c.chunkSize;
    DivModParts(b - begin, cs);
    var i := (b - begin) % cs;
    if (b - begin) / cs >= 1 {
      MulMonotone(1, (b - begin) / cs, cs);
    }
    assert begin + i + ((b - begin) / cs) * cs == b;
    ModShift(begin + i, (b - begin) / cs, cs);
    InStripeBlock(c, stripe, b);
    InStripeBlock(c, stripe, begin + i);
    assert Touched(c, begin, end)[i] == Bmap(c, b).off;
  }

  lemma TouchedInStripe(c: Config, stripe: int, begin: int, end: int, off: int)
    requires c.Valid() && c.HasParity() && InStripe(c, stripe, begin, end) && off in Touched(c, begin, end)
    ensures off >= 0 && off / c.chunkSize == stripe
  {
    var i :| 0 <= i < |Touched(c, begin, end)| && Touched(c, begin, end)[i] == off;
    InStripeBlock(c, stripe, begin + i);
  }

  /** The program's "if off not in offList" keeps offList equal to Touched. */
  lemma TouchedStep(c: Config, stripe: int, begin: int, b: int)
    requires c.Valid() && c.HasParity() && InStripe(c, stripe, begin, b + 1) && begin <= b
    ensures Touched(c, begin, b + 1) ==
            if Bmap(c, b).off in Touched(c, begin, b) then Touched(c, begin, b)
            else Touched(c, begin, b) + [Bmap(c, b).off]
  {
    var cs := c.chunkSize;
    var seen := Touched(c, begin, b);
    InStripeBlock(c, stripe, b);
    if b - begin < cs {
      forall i | 0 <= i < |seen|
        ensures seen[i] != Bmap(c, b).off
      {
        InStripeBlock(c, stripe, begin + i);
        if (begin + i) % cs == b % cs {
          ModClose(begin + i, b, cs);
        }
      }
    } else {
      var i := (b - begin) % cs;
      DivModParts(b - begin, cs);
      ModShift(begin + i, (b - begin) / cs, cs);
      assert begin + i + ((b - begin) / cs) * cs == b;
      InStripeBlock(c, stripe, begin + i);
      assert seen[i] == Bmap(c, b).off;
    }
  }

  // ---------- reads and writes of a plan ----------

  ghost function Reads(plan: seq<IO>): nat {
    if plan == [] then 0 else Reads(plan[..|plan| - 1]) + (if plan[|plan| - 1].Read? then 1 else 0)
  }

  lemma {:induction false} ReadsConcat(p: seq<IO>, q: seq<IO>)
    ensures Reads(p + q) == Reads(p) + Reads(q)
  {
    if q == [] {
      assert p + q == p;
    } else {
      assert (p + q)[..|p + q| - 1] == p + q[..|q| - 1];
      ReadsConcat(p, q[..|q| - 1]);
    }
  }

  lemma {:induction false} ReadsUniform(p: seq<IO>, isRead: bool)
    requires forall i :: 0 <= i < |p| ==> p[i].Read? == isRead
    ensures Reads(p) == if isRead then |p| else 0
  {
    if p != [] {
      ReadsUniform(p[..|p| - 1], isRead);
    }
  }

  /**
   The exact cost of doPartialWrite on k blocks that touch p = min(k, chunkSize) offsets:
   2 * (k + p) I/Os when subtractive, blocksInStripe + p when additive; k + p of them writes.
   */
  lemma PartialCost(c: Config, stripe: int, begin: int, end: int)
    requires c.Valid() && c.HasParity() && InStripe(c, stripe, begin, end)
    ensures var k := end - begin;
            var p := Min(k, c.chunkSize);
            var plan := PartialPlan(c, stripe, begin, end);
            && Reads(plan) == (if Subtractive(c, begin, end) then k + p else c.BlocksInStripe() - k)
            && |plan| - Reads(plan) == k + p
            && |plan| == (if Subtractive(c, begin, end) then 2 * (k + p) else c.BlocksInStripe() + p)
  {
    var rs := PartialReads(c, stripe, begin, end);
    var ws := PartialWrites(c, stripe, begin, end);
    ReadsConcat(rs, ws);
    ReadsUniform(rs, true);
    ReadsUniform(ws, false);
  }

  /** The reads of a partial-stripe write, in order: its data and then its parity, or the rest of the stripe. */
  ghost predicate PartialReadTraffic(c: Config, ios: seq<IO>, stripe: int, begin: int, end: int)
    requires c.Valid() && c.HasParity()
  {
    var k, p, sb := end - begin, Min(end - begin, c.chunkSize), stripe * c.BlocksInStripe();
    if k + 1 <= c.BlocksInStripe() - k then
      && |ios| == k + p
      && (forall i :: 0 <= i < k ==> ios[i] == Read(Bmap(c, begin + i)))
      && forall i :: k <= i < k + p ==> ios[i] == Read(Loc(Pmap(c, stripe), Bmap(c, begin + i - k).off))
    else
      && |ios| == c.BlocksInStripe() - k
      && forall i :: 0 <= i < |ios| ==> ios[i] == Read(Bmap(c, if i < begin - sb then sb + i else sb + i + k))
  }

  /** The writes, in order: the data, and the parity of each offset the data has, once. */
  ghost predicate PartialWriteTraffic(c: Config, ios: seq<IO>, stripe: int, begin: int, end: int)
    requires c.Valid() && c.HasParity()
  {
    var k, p := end - begin, Min(end - begin, c.chunkSize);
    && |ios| == k + p
    && (forall i :: 0 <= i < k ==> ios[i] == Write(Bmap(c, begin + i)))
    && forall i :: k <= i < k + p ==> ios[i] == Write(Loc(Pmap(c, stripe), Bmap(c, begin + i - k).off))
  }

  /** All reads come before all writes. */
  ghost predicate PartialTraffic(c: Config, ios: seq<IO>, stripe: int, begin: int, end: int)
    requires c.Valid() && c.HasParity()
  {
    var k, p := end - begin, Min(end - begin, c.chunkSize);
    var n := if k + 1 <= c.BlocksInStripe() - k then k + p else c.BlocksInStripe() - k;
    0 <= n <= |ios| && PartialReadTraffic(c, ios[..n], stripe, begin, end)
    && PartialWriteTraffic(c, ios[n..], stripe, begin, end)
  }

  lemma PartialReadsInOrder(c: Config, stripe: int, begin: int, end: int)
    requires c.Valid() && c.HasParity() && InStripe(c, stripe, begin, end)
    ensures PartialReadTraffic(c, PartialReads(c, stripe, begin, end), stripe, begin, end)
  {
  }

  lemma PartialWritesInOrder(c: Config, stripe: int, begin: int, end: int)
    requires c.Valid() && c.HasParity() && InStripe(c, stripe, begin, end)
    ensures PartialWriteTraffic(c, PartialWrites(c, stripe, begin, end), stripe, begin, end)
  {
  }

  lemma CutAt<T>(before: seq<T>, rs: seq<T>, ws: seq<T>)
    ensures (before + (rs + ws))[|before|..][..|rs|] == rs && (before + (rs + ws))[|before|..][|rs|..] == ws
  {
    assert (before + (rs + ws))[|before|..] == rs + ws;
  }

  lemma PlanTraffic(c: Config, stripe: int, begin: int, end: int, before: seq<IO>, after: seq<IO>)
    requires c.Valid() && c.HasParity() && InStripe(c, stripe, begin, end)
    requires after == before + PartialPlan(c, stripe, begin, end)
    ensures PartialTraffic(c, after[|before|..], stripe, begin, end)
  {
    PartialReadsInOrder(c, stripe, begin, end);
    PartialWritesInOrder(c, stripe, begin, end);
    CutAt(before, PartialReads(c, stripe, begin, end), PartialWrites(c, stripe, begin, end));
  }

  /**
   The test compares k + 1 reads with blocksInStripe - k, but subtractive parity does k + p reads.
   So it picks the branch with the fewer reads exactly when blocksInStripe - k is not in [k + 1, k + p).
   */
  lemma FewestReadsExactly(c: Config, stripe: int, begin: int, end: int)
    requires c.Valid() && c.HasParity() && InStripe(c, stripe, begin, end) && begin < end
    ensures var k := end - begin;
            var p := Min(k, c.chunkSize);
            Reads(PartialPlan(c, stripe, begin, end)) == Min(k + p, c.BlocksInStripe() - k)
            <==> !(k + 1 <= c.BlocksInStripe() - k < k + p)
  {
    PartialCost(c, stripe, begin, end);
  }

  /** With one-block chunks the test is always right, and a full-stripe write reads nothing. */
  lemma FewestReadsUnitChunk(c: Config, stripe: int, begin: int, end: int)
    requires c.Valid() && c.HasParity() && InStripe(c, stripe, begin, end) && begin < end
    ensures c.chunkSize == 1 ==>
              Reads(PartialPlan(c, stripe, begin, end)) == Min(end - begin + 1, c.BlocksInStripe() - (end - begin))
    ensures end - begin == c.BlocksInStripe() ==> Reads(PartialPlan(c, stripe, begin, end)) == 0
  {
    PartialCost(c, stripe, begin, end);
  }

  /** A four-block-chunk example where the test picks six reads over five. */
  lemma FewestReadsFails()
    ensures var c := Config(3, 4, Raid5, LeftSymmetric);
            c.Valid() && InStripe(c, 0, 0, 3) && Subtractive(c, 0, 3)
            && Reads(PartialPlan(c, 0, 0, 3)) == 6 && c.BlocksInStripe() - 3 == 5
  {
    PartialCost(Config(3, 4, Raid5, LeftSymmetric), 0, 0, 3);
  }

  // ---------- what the parity computation needs is there ----------

  /** A data block on a row of the stripe is one of the stripe's logical blocks. */
  lemma RowBlock(c: Config, stripe: int, l: Loc)
    requires c.Valid() && c.HasParity() && stripe >= 0 && OnArray(c, l)
    requires l.off / c.chunkSize == stripe && l.disk != Pmap(c, stripe)
    ensures Holds(c, l).Data? && Bmap(c, Holds(c, l).bnum) == l
    ensures stripe * c.BlocksInStripe() <= Holds(c, l).bnum < stripe * c.BlocksInStripe() + c.BlocksInStripe()
  {
    ParityPlace(c, l, stripe);
    BmapHolds(c, l);
    StripeOfBlock(c, Holds(c, l).bnum);
    DivModParts(Holds(c, l).bnum, c.BlocksInStripe());
  }

  lemma PlanHasBlock(c: Config, stripe: int, begin: int, end: int, b: int)
    requires c.Valid() && c.HasParity() && InStripe(c, stripe, begin, end)
    requires stripe * c.BlocksInStripe() <= b < stripe * c.BlocksInStripe() + c.BlocksInStripe()
    ensures begin <= b < end ==> Write(Bmap(c, b)) in PartialPlan(c, stripe, begin, end)
    ensures Read(Bmap(c, b)) in PartialPlan(c, stripe, begin, end)
            <== (Subtractive(c, begin, end) <==> begin <= b < end)
  {
    var sb := stripe * c.BlocksInStripe();
    if begin <= b < end {
      assert WriteBlocks(c, begin, end)[b - begin] == Write(Bmap(c, b));
      assert ReadBlocks(c, begin, end)[b - begin] == Read(Bmap(c, b));
    } else if b < begin {
      assert ReadBlocks(c, sb, begin)[b - sb] == Read(Bmap(c, b));
    } else {
      assert ReadBlocks(c, end, sb + c.BlocksInStripe())[b - end] == Read(Bmap(c, b));
    }
  }

  /**
   In each branch the I/Os suffice to compute every parity block written: subtractive reads the old
   parity and the old value of every block it overwrites, additive reads every block it does not write.
   */
  lemma ParityInputsAvailable(c: Config, stripe: int, begin: int, end: int, off: int, disk: int)
    requires c.Valid() && c.HasParity() && InStripe(c, stripe, begin, end)
    requires Write(Loc(Pmap(c, stripe), off)) in PartialPlan(c, stripe, begin, end)
    requires 0 <= disk < c.numDisks && disk != Pmap(c, stripe)
    ensures var plan := PartialPlan(c, stripe, begin, end);
            if Subtractive(c, begin, end) then
              && Read(Loc(Pmap(c, stripe), off)) in plan
              && (Write(Loc(disk, off)) in plan ==> Read(Loc(disk, off)) in plan)
            else Write(Loc(disk, off)) in plan || Read(Loc(disk, off)) in plan
  {
    WriteInPlan(c, stripe, begin, end, Loc(Pmap(c, stripe), off));
    TouchedInStripe(c, stripe, begin, end, off);
    var offs := Touched(c, begin, end);
    var i :| 0 <= i < |offs| && offs[i] == off;
    assert ReadAt(Pmap(c, stripe), offs)[i] == Read(Loc(Pmap(c, stripe), off));
    var l := Loc(disk, off);
    RowBlock(c, stripe, l);
    PlanHasBlock(c, stripe, begin, end, Holds(c, l).bnum);
    if Write(l) in PartialPlan(c, stripe, begin, end) {
      WriteInPlan(c, stripe, begin, end, l);
      var b :| begin <= b < end && Bmap(c, b) == l;
      InStripeBlock(c, stripe, b);
      HoldsBmap(c, b);
    }
  }

  /** A write in the plan is a data write of the run or a parity write at a touched offset. */
  lemma WriteInPlan(c: Config, stripe: int, begin: int, end: int, l: Loc)
    requires c.Valid() && c.HasParity() && InStripe(c, stripe, begin, end)
    requires Write(l) in PartialPlan(c, stripe, begin, end)
    ensures if l.disk == Pmap(c, stripe) then l.off in Touched(c, begin, end)
            else exists b :: begin <= b < end && Bmap(c, b) == l
  {
    var before := PartialReads(c, stripe, begin, end);
    var data := WriteBlocks(c, begin, end);
    var plan := PartialPlan(c, stripe, begin, end);
    var i :| 0 <= i < |plan| && plan[i] == Write(l);
    assert i >= |before|;
    if i < |before| + |data| {
      assert plan[i] == data[i - |before|];
      InStripeBlock(c, stripe, begin + (i - |before|));
    } else {
      var j := i - |before| - |data|;
      assert plan[i] == WriteAt(Pmap(c, stripe), Touched(c, begin, end))[j];
    }
  }

  // ---------- the cut into stripes ----------

  /**
   The pieces of [addr, addr + size) lie inside their stripes, start at addr, follow one another
   without gap or overlap, end at addr + size, and are not empty unless the request is.
   */
  lemma PiecesPartition(c: Config, addr: nat, size: nat, stripe: int)
    requires c.Valid() && c.HasParity() && c.BlocksInStripe() >= 1
    requires FirstStripe(c, addr) <= stripe <= FinalStripe(c, addr, size)
    ensures InStripe(c, stripe, PieceBegin(c, addr, stripe), PieceEnd(c, addr, size, stripe))
    ensures size >= 1 ==> PieceBegin(c, addr, stripe) < PieceEnd(c, addr, size, stripe)
    ensures stripe == FirstStripe(c, addr) ==> PieceBegin(c, addr, stripe) == addr
    ensures stripe < FinalStripe(c, addr, size) ==>
              PieceEnd(c, addr, size, stripe) == PieceBegin(c, addr, stripe + 1)
    ensures stripe == FinalStripe(c, addr, size) ==> PieceEnd(c, addr, size, stripe) == addr + size
  {
    var n := c.BlocksInStripe();
    var first := FirstStripe(c, addr);
    var last := FinalStripe(c, addr, size);
    DivModParts(addr, n);
    DivModParts(addr + size - 1, n);
    MulMonotone(first, stripe, n);
    MulMonotone(stripe, last, n);
    if first < stripe {
      MulMonotone(first + 1, stripe, n);
    }
    if stripe < last {
      MulMonotone(stripe + 1, last, n);
    }
    assert (stripe + 1) * n == stripe * n + n;
    assert (first + 1) * n == first * n + n;
  }

  // ---------- capacity ----------

  /** No I/O of the plan lies beyond the end of a disk. */
  ghost predicate Fits(plan: seq<IO>, capacity: int) {
    forall i :: 0 <= i < |plan| ==> plan[i].at.off < capacity
  }

  lemma FitsParts(p: seq<IO>, q: seq<IO>, capacity: int)
    requires Fits(p + q, capacity)
    ensures Fits(p, capacity) && Fits(q, capacity)
  {
    forall i | 0 <= i < |p|
      ensures p[i].at.off < capacity
    {
      assert p[i] == (p + q)[i];
    }
    forall i | 0 <= i < |q|
      ensures q[i].at.off < capacity
    {
      assert q[i] == (p + q)[|p| + i];
    }
  }

  lemma {:induction false} FitsStripe(c: Config, addr: int, size: int, first: int, stripe: int, last: int,
                                      capacity: int)
    requires c.Valid() && c.HasParity() && first <= stripe < last
    requires Fits(WritePlan(c, addr, size, first, last), capacity)
    ensures Fits(PartialPlan(c, stripe, PieceBegin(c, addr, stripe), PieceEnd(c, addr, size, stripe)), capacity)
    decreases last - first
  {
    var plan := PartialPlan(c, last - 1, PieceBegin(c, addr, last - 1), PieceEnd(c, addr, size, last - 1));
    assert WritePlan(c, addr, size, first, last) == WritePlan(c, addr, size, first, last - 1) + plan;
    FitsParts(WritePlan(c, addr, size, first, last - 1), plan, capacity);
    if stripe < last - 1 {
      FitsStripe(c, addr, size, first, stripe, last - 1, capacity);
    }
  }

  lemma {:induction false} FitsMirror(c: Config, addr: int, n: nat, size: nat, isWrite: bool, capacity: int)
    requires c.Valid() && c.level.Raid1? && n < size
    requires Fits(MirrorPlan(c, addr, size, isWrite), capacity)
    ensures Fits(MirrorStep(c, addr + n, isWrite), capacity)
  {
    FitsParts(MirrorPlan(c, addr, size - 1, isWrite), MirrorStep(c, addr + size - 1, isWrite), capacity);
    if n < size - 1 {
      FitsMirror(c, addr, n, size - 1, isWrite, capacity);
    }
  }
}
