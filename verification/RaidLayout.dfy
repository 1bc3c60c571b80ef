/** Where raid.py puts each logical block: bmap0, bmap1, bmap4, bmap5 and the parity disks. */
module RaidLayout {
  import opened Arithmetic

  datatype Level = Raid0 | Raid1 | Raid4 | Raid5

  datatype Rotation = LeftAsymmetric | LeftSymmetric

  /** A physical block: disk number and offset on that disk. */
  datatype Loc = Loc(disk: int, off: int)

  datatype Config = Config(numDisks: nat, chunkSize: nat, level: Level, rotation: Rotation) {
    ghost predicate Valid() {
      && chunkSize >= 1
      && numDisks >= 1
      && (level != Raid0 ==> numDisks >= 2)
      && (level.Raid1? ==> numDisks % 2 == 0)
    }

    ghost predicate HasParity() { level.Raid4? || level.Raid5? }

    function BlocksInStripe(): int { (numDisks - 1) * chunkSize }

    /** Distinct data chunks in one row of chunks. */
    function Width(): (w: nat)
      requires Valid()
      ensures w >= 1
    {
      match level
      case Raid0 => numDisks
      case Raid1 => numDisks / 2
      case Raid4 => numDisks - 1
      case Raid5 => numDisks - 1
    }
  }

  // ---------- the maps, as the program computes them ----------

  function Bmap0(c: Config, bnum: int): Loc
    requires c.Valid()
  {
    var cnum := bnum / c.chunkSize;
    var coff := bnum % c.chunkSize;
    Loc(cnum % c.numDisks, (cnum / c.numDisks) * c.chunkSize + coff)
  }

  /** Both copies of a mirrored block. */
  function Bmap1(c: Config, bnum: int): (Loc, Loc)
    requires c.Valid() && c.level.Raid1?
  {
    var cnum := bnum / c.chunkSize;
    var coff := bnum % c.chunkSize;
    var disk := 2 * (cnum % (c.numDisks / 2));
    var off := (cnum / (c.numDisks / 2)) * c.chunkSize + coff;
    (Loc(disk, off), Loc(disk + 1, off))
  }

  function Bmap4(c: Config, bnum: int): Loc
    requires c.Valid() && c.HasParity()
  {
    var cnum := bnum / c.chunkSize;
    var coff := bnum % c.chunkSize;
    Loc(cnum % (c.numDisks - 1), (cnum / (c.numDisks - 1)) * c.chunkSize + coff)
  }

  /** __bmap5: the block's place and the parity disk of its stripe. */
  function Bmap5Full(c: Config, bnum: int): (Loc, int)
    requires c.Valid() && c.HasParity()
  {
    var cnum := bnum / c.chunkSize;
    var coff := bnum % c.chunkSize;
    var ddsk := cnum / (c.numDisks - 1);
    var doff := ddsk * c.chunkSize + coff;
    var disk := cnum % (c.numDisks - 1);
    var col := ddsk % c.numDisks;
    var pdisk := c.numDisks - 1 - col;
    match c.rotation
    case LeftAsymmetric => (Loc(if disk >= pdisk then disk + 1 else disk, doff), pdisk)
    case LeftSymmetric => (Loc((disk - col) % c.numDisks, doff), pdisk)
  }

  /** Where the data of a logical block lives (the first copy, at level 1). */
  function Bmap(c: Config, bnum: int): Loc
    requires c.Valid()
  {
    match c.level
    case Raid0 => Bmap0(c, bnum)
    case Raid1 => Bmap1(c, bnum).0
    case Raid4 => Bmap4(c, bnum)
    case Raid5 => Bmap5Full(c, bnum).0
  }

  /** pmap4 and pmap5. */
  function Pmap(c: Config, stripe: int): int
    requires c.Valid() && c.HasParity()
  {
    if c.level.Raid4? then c.numDisks - 1 else Bmap5Full(c, stripe * c.BlocksInStripe()).1
  }

  // ---------- chunk coordinates ----------

  /** A block by chunk row, position in the row and position in the chunk. */
  datatype Coord = Coord(row: int, slot: int, coff: int)

  function Split(b: int, w: nat, cs: nat): Coord
    requires w >= 1 && cs >= 1
  {
    Coord((b / cs) / w, (b / cs) % w, b % cs)
  }

  function Join(k: Coord, w: nat, cs: nat): int { (k.row * w + k.slot) * cs + k.coff }

  lemma SplitJoin(k: Coord, w: nat, cs: nat)
    requires 0 <= k.slot < w && 0 <= k.coff < cs
    ensures Split(Join(k, w, cs), w, cs) == k
    ensures (k.row * cs + k.coff) / cs == k.row && (k.row * cs + k.coff) % cs == k.coff
    ensures k.row >= 0 ==> Join(k, w, cs) >= 0 && k.row * cs + k.coff >= 0
  {
    DivModUnique(Join(k, w, cs), cs, k.row * w + k.slot, k.coff);
    DivModUnique(k.row * w + k.slot, w, k.row, k.slot);
    DivModUnique(k.row * cs + k.coff, cs, k.row, k.coff);
    if k.row >= 0 {
      MulMonotone(0, k.row, w);
      MulMonotone(0, k.row, cs);
      MulMonotone(0, k.row * w + k.slot, cs);
    }
  }

  lemma JoinSplit(b: int, w: nat, cs: nat)
    requires w >= 1 && cs >= 1
    ensures Join(Split(b, w, cs), w, cs) == b
    ensures 0 <= Split(b, w, cs).slot < w && 0 <= Split(b, w, cs).coff < cs
    ensures b >= 0 ==> Split(b, w, cs).row >= 0
  {
    DivModParts(b, cs);
    DivModParts(b / cs, w);
  }

  /** One block further: in the chunk, in the next chunk of the row, or at the start of the next row. */
  function Next(k: Coord, w: nat, cs: nat): Coord {
    if k.coff + 1 < cs then Coord(k.row, k.slot, k.coff + 1)
    else if k.slot + 1 < w then Coord(k.row, k.slot + 1, 0)
    else Coord(k.row + 1, 0, 0)
  }

  lemma SplitNext(b: int, w: nat, cs: nat)
    requires w >= 1 && cs >= 1
    ensures Split(b + 1, w, cs) == Next(Split(b, w, cs), w, cs)
  {
    var k := Split(b, w, cs);
    var next := Next(k, w, cs);
    JoinSplit(b, w, cs);
    assert Join(next, w, cs) == b + 1 by {
      assert (k.row * w + k.slot) * cs + cs == (k.row * w + (k.slot + 1)) * cs;
      assert (k.row + 1) * w == k.row * w + w;
    }
    SplitJoin(next, w, cs);
  }

  lemma NextDepth(k: Coord, w: nat, cs: nat)
    requires 0 <= k.slot < w && 0 <= k.coff < cs
    ensures var n := Next(k, w, cs);
            n.row * cs + n.coff == k.row * cs + k.coff + 1 - if k.coff + 1 == cs && k.slot + 1 < w then cs else 0
  {
    assert (k.row + 1) * cs == k.row * cs + cs;
  }

  /** Chunk rows of w chunks of cs blocks are w * cs blocks long. */
  lemma JoinByRow(k: Coord, w: nat, cs: nat)
    ensures Join(k, w, cs) == k.row * (w * cs) + (k.slot * cs + k.coff)
  {
    assert (k.row * w + k.slot) * cs == (k.row * w) * cs + k.slot * cs;
    assert (k.row * w) * cs == k.row * (w * cs);
  }

  lemma InsideRow(slot: int, coff: int, w: nat, cs: nat)
    requires 0 <= slot < w && 0 <= coff < cs
    ensures 0 <= slot * cs + coff < w * cs
  {
    MulMonotone(0, slot, cs);
    MulMonotone(slot + 1, w, cs);
    assert (slot + 1) * cs == slot * cs + cs;
  }

  /** The row of a block is the stripe it lies in. */
  lemma RowIsStripe(b: int, w: nat, cs: nat)
    requires w >= 1 && cs >= 1
    ensures w * cs >= 1
    ensures Split(b, w, cs).row == b / (w * cs)
  {
    var k := Split(b, w, cs);
    JoinSplit(b, w, cs);
    JoinByRow(k, w, cs);
    InsideRow(k.slot, k.coff, w, cs);
    DivModUnique(b, w * cs, k.row, k.slot * cs + k.coff);
  }

  // ---------- every layout is a bijection ----------

  /** What a physical block holds: one logical block, or the parity of a stripe. */
  datatype Content = Data(bnum: int) | Parity(stripe: int)

  /** The inverse of the layout. */
  function Holds(c: Config, l: Loc): Content
    requires c.Valid() && 0 <= l.disk < c.numDisks
  {
    var row := l.off / c.chunkSize;
    var coff := l.off % c.chunkSize;
    match c.level
    case Raid0 => Data(Join(Coord(row, l.disk, coff), c.Width(), c.chunkSize))
    case Raid1 => Data(Join(Coord(row, l.disk / 2, coff), c.Width(), c.chunkSize))
    case Raid4 =>
      if l.disk == c.numDisks - 1 then Parity(row)
      else Data(Join(Coord(row, l.disk, coff), c.Width(), c.chunkSize))
    case Raid5 =>
      var col := row % c.numDisks;
      var pdisk := c.numDisks - 1 - col;
      if l.disk == pdisk then Parity(row)
      else
        var slot := match c.rotation
          case LeftAsymmetric => if l.disk > pdisk then l.disk - 1 else l.disk
          case LeftSymmetric => (l.disk + col) % c.numDisks;
        Data(Join(Coord(row, slot, coff), c.Width(), c.chunkSize))
  }

  /** The rotate-by-row arithmetic at level 5, for one row: slot to disk and back. */
  function Rotate(c: Config, slot: int, col: int): int
    requires c.numDisks >= 2
  {
    var pdisk := c.numDisks - 1 - col;
    match c.rotation
    case LeftAsymmetric => if slot >= pdisk then slot + 1 else slot
    case LeftSymmetric => (slot - col) % c.numDisks
  }

  lemma RotateValue(c: Config, slot: int, col: int)
    requires c.numDisks >= 2 && 0 <= col < c.numDisks && 0 <= slot < c.numDisks - 1
    ensures c.rotation.LeftSymmetric? ==>
              Rotate(c, slot, col) == if slot >= col then slot - col else slot - col + c.numDisks
    ensures 0 <= Rotate(c, slot, col) < c.numDisks
    ensures Rotate(c, slot, col) != c.numDisks - 1 - col
  {
    var n := c.numDisks;
    if slot >= col {
      DivModUnique(slot - col, n, 0, slot - col);
    } else {
      DivModUnique(slot - col, n, -1, slot - col + n);
    }
  }

  lemma BmapByCoord(c: Config, b: int)
    requires c.Valid()
    ensures var k := Split(b, c.Width(), c.chunkSize);
            Bmap(c, b).off == k.row * c.chunkSize + k.coff
    ensures var k := Split(b, c.Width(), c.chunkSize);
            Bmap(c, b).disk == match c.level
              case Raid0 => k.slot
              case Raid1 => 2 * k.slot
              case Raid4 => k.slot
              case Raid5 => Rotate(c, k.slot, k.row % c.numDisks)
  {
  }

  /** A logical block is found where the layout put it, on a real disk, and never on its stripe's parity disk. */
  lemma HoldsBmap(c: Config, b: int)
    requires c.Valid() && b >= 0
    ensures 0 <= Bmap(c, b).disk < c.numDisks && Bmap(c, b).off >= 0
    ensures Holds(c, Bmap(c, b)) == Data(b)
    ensures c.level.Raid1? ==> Bmap1(c, b).1 == Loc(Bmap(c, b).disk + 1, Bmap(c, b).off)
    ensures c.level.Raid1? ==> Bmap1(c, b).1.disk < c.numDisks && Holds(c, Bmap1(c, b).1) == Data(b)
  {
    var k := Split(b, c.Width(), c.chunkSize);
    JoinSplit(b, c.Width(), c.chunkSize);
    SplitJoin(k, c.Width(), c.chunkSize);
    BmapByCoord(c, b);
    if c.level.Raid5? {
      DivModParts(k.row, c.numDisks);
      RotateValue(c, k.slot, k.row % c.numDisks);
      RotateBack(c, k.slot, k.row % c.numDisks);
    }
  }

  lemma RotateBack(c: Config, slot: int, col: int)
    requires c.numDisks >= 2 && 0 <= col < c.numDisks && 0 <= slot < c.numDisks - 1
    ensures c.rotation.LeftSymmetric? ==> (Rotate(c, slot, col) + col) % c.numDisks == slot
  {
    RotateValue(c, slot, col);
    if c.rotation.LeftSymmetric? {
      var d := Rotate(c, slot, col);
      DivModUnique(d + col, c.numDisks, if slot >= col then 0 else 1, slot);
    }
  }

  /** Every physical block that is not parity is the home of exactly the logical block Holds names. */
  lemma BmapHolds(c: Config, l: Loc)
    requires c.Valid() && 0 <= l.disk < c.numDisks && l.off >= 0
    ensures Holds(c, l).Data? ==> Holds(c, l).bnum >= 0
    ensures Holds(c, l).Data? ==> Bmap(c, Holds(c, l).bnum) == if c.level.Raid1? then Loc(l.disk / 2 * 2, l.off) else l
    ensures c.level.Raid1? && l.disk % 2 == 1 ==> Bmap1(c, Holds(c, l).bnum).1 == l
  {
    DivModParts(l.off, c.chunkSize);
    var row := l.off / c.chunkSize;
    match Holds(c, l)
    case Parity(_) =>
    case Data(b) =>
      var slot := SlotOf(c, l, row);
      var k := Coord(row, slot, l.off % c.chunkSize);
      assert b == Join(k, c.Width(), c.chunkSize);
      SplitJoin(k, c.Width(), c.chunkSize);
      BmapByCoord(c, b);
  }

  lemma SlotOf(c: Config, l: Loc, row: int) returns (slot: int)
    requires c.Valid() && 0 <= l.disk < c.numDisks && l.off >= 0 && row == l.off / c.chunkSize
    requires Holds(c, l).Data?
    ensures 0 <= slot < c.Width()
    ensures Holds(c, l) == Data(Join(Coord(row, slot, l.off % c.chunkSize), c.Width(), c.chunkSize))
    ensures l.disk == match c.level
              case Raid0 => slot
              case Raid1 => 2 * slot + l.disk % 2
              case Raid4 => slot
              case Raid5 => Rotate(c, slot, row % c.numDisks)
  {
    match c.level
    case Raid0 => slot := l.disk;
    case Raid1 => slot := l.disk / 2;
    case Raid4 => slot := l.disk;
    case Raid5 =>
      var n := c.numDisks;
      var col := row % n;
      DivModParts(row, n);
      if c.rotation.LeftSymmetric? {
        slot := (l.disk + col) % n;
        if l.disk + col < n {
          DivModUnique(l.disk + col, n, 0, l.disk + col);
        } else {
          DivModUnique(l.disk + col, n, 1, l.disk + col - n);
        }
        RotateValue(c, slot, col);
      } else {
        slot := if l.disk > n - 1 - col then l.disk - 1 else l.disk;
      }
  }
}
