/**
 The layouts that raid-graphics.py sets its requests up with, compared with raid.py: they are those of four disks
 with one-block chunks, left-asymmetric at level 5.
 */
module SimLayout {
  import opened SimRequest
  import opened SimState
  import Layout = RaidLayout
  import Theorems = RaidLayoutTheorems

  /** The array of raid.py with the same layout. */
  ghost function ArrayOf(m: Mapping): Layout.Config {
    var level := match m
      case Striped => Layout.Raid0
      case Mirrored => Layout.Raid1
      case Parity4 => Layout.Raid4
      case Parity5 => Layout.Raid5;
    Layout.Config(DISK_COUNT, 1, level, Layout.LeftAsymmetric)
  }

  ghost function DataPlace(r: Req): Layout.Loc { Layout.Loc(r.disk0, r.offset) }

  /** Where the second disk of the list is used: the other copy, or the parity. */
  ghost function OtherPlace(r: Req): Layout.Loc { Layout.Loc(r.disk1, r.offset) }

  /** raid.py's maps with these numbers of disks and blocks. */
  ghost function HomeOf(m: Mapping, b: nat): Layout.Loc {
    match m
    case Striped => Layout.Loc(b % 4, b / 4)
    case Mirrored => Layout.Loc(2 * (b % 2), b / 2)
    case Parity4 => Layout.Loc(b % 3, b / 3)
    case Parity5 => Layout.Loc(if b % 3 >= 3 - b / 3 % 4 then b % 3 + 1 else b % 3, b / 3)
  }

  lemma MapsHere(m: Mapping, b: nat)
    ensures ArrayOf(m).Valid() && Layout.Bmap(ArrayOf(m), b) == HomeOf(m, b)
  {
    var c := ArrayOf(m);
    assert c.chunkSize == 1 && c.numDisks == 4;
    assert b / c.chunkSize == b / 1 == b && b % c.chunkSize == b % 1 == 0;
    match m
    case Striped => assert b % c.numDisks == b % 4 && b / c.numDisks == b / 4;
    case Mirrored => assert b % (c.numDisks / 2) == b % 2 && b / (c.numDisks / 2) == b / 2;
    case Parity4 => assert b % (c.numDisks - 1) == b % 3 && b / (c.numDisks - 1) == b / 3;
    case Parity5 =>
      assert b % (c.numDisks - 1) == b % 3 && b / (c.numDisks - 1) == b / 3;
      assert b / 3 % c.numDisks == b / 3 % 4;
  }

  lemma ParityHere(m: Mapping, row: nat)
    requires m.Parity4? || m.Parity5?
    ensures ArrayOf(m).Valid() && Layout.Pmap(ArrayOf(m), row) == 3 - if m.Parity5? then row % 4 else 0
  {
    Theorems.PmapValue(ArrayOf(m), row);
    assert row % ArrayOf(m).numDisks == row % 4;
  }

  lemma MirrorHere(b: nat)
    ensures ArrayOf(Mirrored).Valid()
    ensures Layout.Bmap1(ArrayOf(Mirrored), b).1 == Layout.Loc(HomeOf(Mirrored, b).disk + 1, HomeOf(Mirrored, b).off)
  {
    MapsHere(Mirrored, b);
    Layout.HoldsBmap(ArrayOf(Mirrored), b);
  }

  lemma HomeIs(m: Mapping, r: Req)
    requires AtHome(m, r)
    ensures DataPlace(r) == HomeOf(m, r.logical) && r.offset == RowOf(m, r.logical)
  {
  }

  /** The two programs agree: on the home of every block, on its second copy, and on the parity disk of its row. */
  lemma SameLayout(m: Mapping, r: Req)
    requires AtHome(m, r)
    ensures ArrayOf(m).Valid()
    ensures DataPlace(r) == Layout.Bmap(ArrayOf(m), r.logical)
    ensures m.Mirrored? ==> OtherPlace(r) == Layout.Bmap1(ArrayOf(m), r.logical).1
    ensures m.Parity4? || m.Parity5? ==> r.disk1 == Layout.Pmap(ArrayOf(m), r.offset)
  {
    MapsHere(m, r.logical);
    HomeIs(m, r);
    if m.Mirrored? {
      MirrorHere(r.logical);
    } else if !m.Striped? {
      ParityHere(m, r.offset);
    }
  }

  /** Different blocks have different homes; mirrored ones share no place at all; no home is a parity block. */
  lemma PlacesApart(m: Mapping, r: Req, q: Req)
    requires AtHome(m, r) && AtHome(m, q)
    ensures r.logical != q.logical ==> DataPlace(r) != DataPlace(q)
    ensures m.Mirrored? ==> r.disk0 == 2 * (r.logical % 2) && r.disk1 == 2 * (r.logical % 2) + 1
    ensures m.Mirrored? && r.logical != q.logical ==> {DataPlace(r), OtherPlace(r)} !! {DataPlace(q), OtherPlace(q)}
    ensures m.Parity4? || m.Parity5? ==> DataPlace(r) != OtherPlace(q)
    ensures m.Parity4? || m.Parity5? ==> (OtherPlace(r) == OtherPlace(q) <==> r.offset == q.offset)
  {
  }

  /** The parity disk of a row of level 5, as its first block is set up with it. */
  ghost function ParityDisk(row: nat): int { NewReq(Parity5, 3 * row, OpRead, false, false).disk1 }

  lemma ParityDiskIs(row: nat)
    ensures ParityDisk(row) == 3 - row % 4
  {
  }

  lemma TurnOf(row: nat, disk: int) returns (t: nat)
    requires 0 <= disk < DISK_COUNT
    ensures row <= t < row + 4 && ParityDisk(t) == disk
  {
    t := row + (3 - disk - row) % 4;
    ParityDiskIs(t);
  }

  /** The blocks of a row share its parity disk, and any four consecutive rows have their parity on four disks. */
  lemma ParityTurns(r: Req, row: nat, disk: int)
    requires AtHome(Parity5, r) && r.offset >= 0 && 0 <= disk < DISK_COUNT
    ensures r.disk1 == ParityDisk(r.offset)
    ensures exists t :: row <= t < row + 4 && ParityDisk(t) == disk
    ensures forall t, u :: row <= t <= u < row + 4 && ParityDisk(t) == ParityDisk(u) ==> t == u
  {
    ParityDiskIs(r.offset);
    var t := TurnOf(row, disk);
    forall t, u | row <= t <= u < row + 4 && ParityDisk(t) == ParityDisk(u)
      ensures t == u
    {
      ParityDiskIs(t);
      ParityDiskIs(u);
    }
  }

  /** Every place of the twenty rows is used: by one block, by a copy of it, or for the parity of the row. */
  lemma PlaceUsed(m: Mapping, at: Layout.Loc, op: Op)
    requires 0 <= at.disk < DISK_COUNT && 0 <= at.off < 20
    ensures exists logical: nat :: logical < m.BlockCount() &&
              var r := NewReq(m, logical, op, false, false);
              DataPlace(r) == at || OtherPlace(r) == at
  {
    var logical: nat :=
      match m
      case Striped => 4 * at.off + at.disk
      case Mirrored => 2 * at.off + at.disk / 2
      case Parity4 => 3 * at.off + if at.disk == 3 then 0 else at.disk
      case Parity5 =>
        var p := 3 - at.off % 4;
        3 * at.off + if at.disk == p then 0 else if at.disk < p then at.disk else at.disk - 1;
    assert NewReq(m, logical, op, false, false).offset == at.off;
  }
}
