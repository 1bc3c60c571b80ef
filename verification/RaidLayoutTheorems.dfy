/** The layouts are bijections; parity and data rotate over the disks as designed. */
module RaidLayoutTheorems {
  import opened Arithmetic
  import opened RaidLayout

  ghost predicate OnArray(c: Config, l: Loc) { 0 <= l.disk < c.numDisks && l.off >= 0 }

  /** Levels 0, 4, 5: a logical block and the physical block that holds it determine each other. */
  lemma LayoutBijection(c: Config, b: int, l: Loc)
    requires c.Valid() && !c.level.Raid1? && b >= 0 && OnArray(c, l)
    ensures Bmap(c, b) == l <==> Holds(c, l) == Data(b)
  {
    HoldsBmap(c, b);
    BmapHolds(c, l);
  }

  /** Level 1: a physical block holds b exactly when it is one of b's two copies. */
  lemma MirrorBijection(c: Config, b: int, l: Loc)
    requires c.Valid() && c.level.Raid1? && b >= 0 && OnArray(c, l)
    ensures Bmap1(c, b).0.disk != Bmap1(c, b).1.disk
    ensures (Bmap1(c, b).0 == l || Bmap1(c, b).1 == l) <==> Holds(c, l) == Data(b)
  {
    HoldsBmap(c, b);
    BmapHolds(c, l);
  }

  lemma PmapValue(c: Config, stripe: int)
    requires c.Valid() && c.HasParity()
    ensures Pmap(c, stripe) == c.numDisks - 1 - (if c.level.Raid5? then stripe % c.numDisks else 0)
    ensures 0 <= Pmap(c, stripe) < c.numDisks
  {
    if c.level.Raid5? {
      var w := c.numDisks - 1;
      var k := Coord(stripe, 0, 0);
      SplitJoin(k, w, c.chunkSize);
      assert Join(k, w, c.chunkSize) == stripe * c.BlocksInStripe() by {
        assert (stripe * w) * c.chunkSize == stripe * (w * c.chunkSize);
      }
      DivModParts(stripe, c.numDisks);
    }
  }

  /** A physical block is parity exactly when it lies on its stripe's parity disk. */
  lemma ParityPlace(c: Config, l: Loc, stripe: int)
    requires c.Valid() && c.HasParity() && OnArray(c, l)
    ensures Holds(c, l) == Parity(stripe) <==> l.disk == Pmap(c, stripe) && l.off / c.chunkSize == stripe
  {
    PmapValue(c, stripe);
  }

  /**
   The stripe of a block gives its row; pmap5 names the parity disk that __bmap5 computes for
   the block itself; and the program's assertion disk != pdisk cannot fail.
   */
  lemma StripeOfBlock(c: Config, b: int)
    requires c.Valid() && c.HasParity() && b >= 0
    ensures c.BlocksInStripe() >= 1
    ensures Bmap(c, b).off / c.chunkSize == b / c.BlocksInStripe()
    ensures Bmap(c, b).off % c.chunkSize == b % c.chunkSize
    ensures Bmap(c, b).disk != Pmap(c, b / c.BlocksInStripe())
    ensures c.level.Raid5? ==> Bmap5Full(c, b).1 == Pmap(c, b / c.BlocksInStripe())
  {
    var w := c.Width();
    RowIsStripe(b, w, c.chunkSize);
    JoinSplit(b, w, c.chunkSize);
    SplitJoin(Split(b, w, c.chunkSize), w, c.chunkSize);
    BmapByCoord(c, b);
    PmapValue(c, b / c.BlocksInStripe());
    HoldsBmap(c, b);
    ParityPlace(c, Bmap(c, b), b / c.BlocksInStripe());
  }

  /** Level 5 puts the parity of any numDisks consecutive stripes on each disk exactly once. */
  lemma ParityRotates(c: Config, stripe: int, disk: int)
    requires c.Valid() && c.level.Raid5? && 0 <= disk < c.numDisks
    ensures exists t :: stripe <= t < stripe + c.numDisks && Pmap(c, t) == disk
    ensures forall t, u :: stripe <= t <= u < stripe + c.numDisks && Pmap(c, t) == Pmap(c, u) ==> t == u
  {
    var n := c.numDisks;
    var t := stripe + (n - 1 - disk - stripe) % n;
    PmapValue(c, t);
    ModAdd(n - 1 - disk - stripe, stripe, n);
    DivModUnique(n - 1 - disk, n, 0, n - 1 - disk);
    assert Pmap(c, t) == disk;
    forall t, u | stripe <= t <= u < stripe + n && Pmap(c, t) == Pmap(c, u)
      ensures t == u
    {
      PmapValue(c, t);
      PmapValue(c, u);
      ModClose(t, u, n);
    }
  }

  // ---------- walking through the blocks ----------

  /** The first data disk of a row at which a walk may step from one: at level 5 left-asymmetric, past the parity. */
  function SkipParity(c: Config, disk: int, row: int): int
    requires c.Valid()
  {
    if c.level.Raid5? && c.rotation.LeftAsymmetric? && disk == c.numDisks - 1 - row % c.numDisks then disk + 1 else disk
  }

  /** Where the next chunk after one on this disk goes: newRow if it opens the given row. */
  function NextDisk(c: Config, disk: int, row: int, newRow: bool): int
    requires c.Valid()
  {
    match c.level
    case Raid0 => if newRow then 0 else disk + 1
    case Raid1 => if newRow then 0 else disk + 2
    case Raid4 => if newRow then 0 else disk + 1
    case Raid5 =>
      match c.rotation
      case LeftAsymmetric => SkipParity(c, if newRow then 0 else disk + 1, row)
      case LeftSymmetric => (disk + 1) % c.numDisks
  }

  lemma FirstBlock(c: Config)
    requires c.Valid()
    ensures Bmap(c, 0) == Loc(0, 0)
  {
    DivModUnique(0, c.chunkSize, 0, 0);
    DivModUnique(0, c.Width(), 0, 0);
    DivModUnique(0, c.numDisks, 0, 0);
    BmapByCoord(c, 0);
  }

  lemma OffsetRow(c: Config, b: int)
    requires c.Valid()
    ensures Bmap(c, b).off / c.chunkSize == Split(b, c.Width(), c.chunkSize).row
  {
    JoinSplit(b, c.Width(), c.chunkSize);
    SplitJoin(Split(b, c.Width(), c.chunkSize), c.Width(), c.chunkSize);
    BmapByCoord(c, b);
  }

  lemma NextOffset(c: Config, b: nat)
    requires c.Valid()
    ensures var k := Split(b, c.Width(), c.chunkSize);
            Bmap(c, b + 1).off ==
            Bmap(c, b).off + 1 - if k.coff + 1 == c.chunkSize && k.slot + 1 < c.Width() then c.chunkSize else 0
  {
    var w, cs := c.Width(), c.chunkSize;
    JoinSplit(b, w, cs);
    SplitNext(b, w, cs);
    NextDepth(Split(b, w, cs), w, cs);
    OffsetByCoord(c, b);
    OffsetByCoord(c, b + 1);
  }

  lemma OffsetByCoord(c: Config, b: int)
    requires c.Valid()
    ensures var k := Split(b, c.Width(), c.chunkSize);
            Bmap(c, b).off == k.row * c.chunkSize + k.coff
  {
    BmapByCoord(c, b);
  }

  lemma NextHome(c: Config, b: nat)
    requires c.Valid()
    ensures var k := Split(b, c.Width(), c.chunkSize);
            Bmap(c, b + 1).disk ==
            if k.coff + 1 < c.chunkSize then Bmap(c, b).disk
            else if k.slot + 1 < c.Width() then NextDisk(c, Bmap(c, b).disk, k.row, false)
            else NextDisk(c, Bmap(c, b).disk, k.row + 1, true)
  {
    var k := Split(b, c.Width(), c.chunkSize);
    JoinSplit(b, c.Width(), c.chunkSize);
    SplitNext(b, c.Width(), c.chunkSize);
    BmapByCoord(c, b);
    BmapByCoord(c, b + 1);
    if c.level.Raid5? {
      NextRotation(c, k.row, k.slot);
    }
  }

  /**
   The layout as a walk over the array: from a block the next one is the block below it, or, where a chunk ends,
   the top of the next chunk of the row, or of the first chunk of the next row.
   */
  lemma NextBlock(c: Config, b: nat)
    requires c.Valid()
    ensures var l, l' := Bmap(c, b), Bmap(c, b + 1);
            var slot := b / c.chunkSize % c.Width();
            if b % c.chunkSize + 1 < c.chunkSize then l' == Loc(l.disk, l.off + 1)
            else if slot + 1 < c.Width() then
              l' == Loc(NextDisk(c, l.disk, l.off / c.chunkSize, false), l.off + 1 - c.chunkSize)
            else l' == Loc(NextDisk(c, l.disk, l.off / c.chunkSize + 1, true), l.off + 1)
  {
    OffsetRow(c, b);
    NextOffset(c, b);
    NextHome(c, b);
    DivModParts(b, c.chunkSize);
    DivModParts(b / c.chunkSize, c.Width());
  }

  /** At level 5, from one slot to the next, and from the last slot of a row to the first of the next. */
  lemma NextRotation(c: Config, row: nat, slot: nat)
    requires c.Valid() && c.level.Raid5? && slot < c.numDisks - 1
    ensures var disk := Rotate(c, slot, row % c.numDisks);
            && (slot + 1 < c.numDisks - 1 ==> Rotate(c, slot + 1, row % c.numDisks) == NextDisk(c, disk, row, false))
            && (slot + 1 == c.numDisks - 1 ==> Rotate(c, 0, (row + 1) % c.numDisks) == NextDisk(c, disk, row + 1, true))
  {
    var n := c.numDisks;
    DivModParts(row, n);
    var col := row % n;
    NextColumn(row, n);
    RotateValue(c, slot, col);
    if slot + 1 < n - 1 {
      RotateValue(c, slot + 1, col);
    } else {
      RotateValue(c, 0, (row + 1) % n);
    }
    if c.rotation.LeftSymmetric? {
      var disk := Rotate(c, slot, col);
      DivModUnique(disk + 1, n, if disk + 1 == n then 1 else 0, if disk + 1 == n then 0 else disk + 1);
    }
  }

  lemma NextColumn(row: int, n: nat)
    requires n >= 1
    ensures (row + 1) % n == if row % n + 1 == n then 0 else row % n + 1
  {
    DivModParts(row, n);
    if row % n + 1 == n {
      DivModUnique(row + 1, n, row / n + 1, 0);
    } else {
      DivModUnique(row + 1, n, row / n, row % n + 1);
    }
  }

  function DiskOfChunk(c: Config, cnum: int): int
    requires c.Valid()
  {
    Bmap(c, cnum * c.chunkSize).disk
  }

  lemma DiskOfChunkByRow(c: Config, cnum: int)
    requires c.Valid() && c.level.Raid5?
    ensures DiskOfChunk(c, cnum) ==
            Rotate(c, cnum % (c.numDisks - 1), (cnum / (c.numDisks - 1)) % c.numDisks)
  {
    DivModUnique(cnum * c.chunkSize, c.chunkSize, cnum, 0);
    BmapByCoord(c, cnum * c.chunkSize);
  }

  lemma RotationCancels(n: nat, q: int, r: int)
    requires n >= 2
    ensures (r - q % n) % n == (q * (n - 1) + r) % n
  {
    ModSub(r, q, n);
    ModShift(r - q, q, n);
    assert r - q + q * n == q * (n - 1) + r;
  }

  /** The rotate-by-row arithmetic of left-symmetric RAID-5 is just cnum % numDisks. */
  lemma LeftSymmetricDisk(c: Config, cnum: int)
    requires c.Valid() && c.level.Raid5? && c.rotation.LeftSymmetric?
    ensures DiskOfChunk(c, cnum) == cnum % c.numDisks
  {
    var n := c.numDisks;
    var q := cnum / (n - 1);
    var r := cnum % (n - 1);
    DiskOfChunkByRow(c, cnum);
    DivModParts(cnum, n - 1);
    RotationCancels(n, q, r);
    assert cnum == q * (n - 1) + r;
  }

  /** Any numDisks consecutive chunks lie on distinct disks. */
  ghost predicate Spreads(c: Config)
    requires c.Valid()
  {
    forall x, y :: 0 <= x < y < x + c.numDisks ==> DiskOfChunk(c, x) != DiskOfChunk(c, y)
  }

  lemma LeftSymmetricSpreads(c: Config)
    requires c.Valid() && c.level.Raid5? && c.rotation.LeftSymmetric?
    ensures Spreads(c)
  {
    forall x, y | 0 <= x < y < x + c.numDisks
      ensures DiskOfChunk(c, x) != DiskOfChunk(c, y)
    {
      LeftSymmetricDisk(c, x);
      LeftSymmetricDisk(c, y);
      if x % c.numDisks == y % c.numDisks {
        ModClose(x, y, c.numDisks);
      }
    }
  }

  lemma TwoDisksSpread(c: Config)
    requires c.Valid() && c.level.Raid5? && c.rotation.LeftAsymmetric? && c.numDisks == 2
    ensures Spreads(c)
  {
    forall x, y | 0 <= x < y < x + c.numDisks
      ensures DiskOfChunk(c, x) != DiskOfChunk(c, y)
    {
      DiskOfChunkByRow(c, x);
      DiskOfChunkByRow(c, y);
    }
  }

  /** Chunk 0 and chunk numDisks - 1 open rows 0 and 1, and left-asymmetric puts both on disk 0. */
  lemma LeftAsymmetricCollides(c: Config)
    requires c.Valid() && c.level.Raid5? && c.rotation.LeftAsymmetric? && c.numDisks > 2
    ensures DiskOfChunk(c, 0) == DiskOfChunk(c, c.numDisks - 1) == 0
  {
    var n := c.numDisks;
    DiskOfChunkByRow(c, 0);
    DiskOfChunkByRow(c, n - 1);
    DivModUnique(n - 1, n - 1, 1, 0);
    DivModUnique(0, n - 1, 0, 0);
    DivModUnique(0, n, 0, 0);
    DivModUnique(1, n, 0, 1);
  }

  /** Level 5 spreads consecutive chunks over all the disks exactly when it is left-symmetric or has two disks. */
  lemma SpreadsExactly(c: Config)
    requires c.Valid() && c.level.Raid5?
    ensures Spreads(c) <==> c.rotation.LeftSymmetric? || c.numDisks == 2
  {
    if c.rotation.LeftSymmetric? {
      LeftSymmetricSpreads(c);
    } else if c.numDisks == 2 {
      TwoDisksSpread(c);
    } else {
      LeftAsymmetricCollides(c);
    }
  }
}
