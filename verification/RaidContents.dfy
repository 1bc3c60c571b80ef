/** What the I/Os of raid.py mean for the data on the disks. */
module RaidContents {
  import opened Arithmetic
  import opened RaidLayout
  import opened RaidLayoutTheorems
  import opened RaidPlan
  import opened Redundancy

  /** The content of a logical block. */
  ghost function Logical(c: Config, s: Store, b: int): Block
    requires c.Valid()
  {
    s[Bmap(c, b)]
  }

  /** Mirrors agree (level 1), parity is right (levels 4 and 5); level 0 has no redundancy. */
  ghost predicate Redundant(c: Config, s: Store)
    requires c.Valid()
  {
    match c.level
    case Raid0 => true
    case Raid1 => forall b :: b >= 0 ==> s[Bmap1(c, b).0] == s[Bmap1(c, b).1]
    case _ => ParityConsistent(c, s)
  }

  /** What a lost block is recomputed from: the other copy, or the XOR of the other disks. */
  ghost function Rebuilt(c: Config, s: Store, l: Loc): Block
    requires c.Valid() && c.level != Raid0
  {
    if c.level.Raid1? then s[Loc(if l.disk % 2 == 0 then l.disk + 1 else l.disk - 1, l.off)]
    else XorOfOthers(s, l.off, c.numDisks, l.disk)
  }

  /** Any single disk can be recomputed from the others: the value does not depend on the lost disk. */
  lemma DiskRecoverable(c: Config, s: Store, damaged: Store, l: Loc)
    requires c.Valid() && c.level != Raid0 && Redundant(c, s) && OnArray(c, l)
    requires forall m: Loc :: m.disk != l.disk ==> damaged[m] == s[m]
    ensures Rebuilt(c, damaged, l) == s[l]
  {
    if c.level.Raid1? {
      BmapHolds(c, l);
      HoldsBmap(c, Holds(c, l).bnum);
    } else {
      var p := Pmap(c, l.off / c.chunkSize);
      DivModParts(l.off, c.chunkSize);
      PmapValue(c, l.off / c.chunkSize);
      assert ParityRow(c, s, l.off);
      RowRecovers(s, l.off, c.numDisks, p);
      RowRecovers(s, l.off, c.numDisks, l.disk);
      XorOfOthersFrame(s, damaged, l.off, c.numDisks, l.disk);
    }
  }

  lemma {:induction false} XorOfOthersFrame(s: Store, t: Store, off: int, n: nat, skip: int)
    requires forall d :: 0 <= d < n && d != skip ==> s[Loc(d, off)] == t[Loc(d, off)]
    ensures XorOfOthers(s, off, n, skip) == XorOfOthers(t, off, n, skip)
  {
    if n > 0 {
      XorOfOthersFrame(s, t, off, n - 1, skip);
    }
  }

  /** t is s with exactly the logical blocks begin .. end replaced by the new data. */
  ghost predicate Stored(c: Config, s: Store, t: Store, data: int -> Block, begin: int, end: int)
    requires c.Valid()
  {
    forall b :: b >= 0 ==> Logical(c, t, b) == if begin <= b < end then data(b) else Logical(c, s, b)
  }

  // ---------- a run of data writes ----------

  /** l is the home of one of the logical blocks begin .. end. */
  ghost predicate InRun(c: Config, l: Loc, begin: int, end: int)
    requires c.Valid()
  {
    OnArray(c, l) && Holds(c, l).Data? && begin <= Holds(c, l).bnum < end
  }

  /** written holds the new data of exactly the logical blocks begin .. end. */
  ghost predicate RunData(c: Config, written: map<Loc, Block>, data: int -> Block, begin: int, end: int)
    requires c.Valid()
  {
    && (forall l :: l in written <==> InRun(c, l, begin, end))
    && (forall l :: l in written ==> written[l] == data(Holds(c, l).bnum))
  }

  ghost predicate Overwritten(s: Store, t: Store, written: map<Loc, Block>) {
    forall l: Loc :: t[l] == if l in written then written[l] else s[l]
  }

  /** Writing the next block of the run extends it. */
  lemma RunDataStep(c: Config, written: map<Loc, Block>, data: int -> Block, begin: nat, b: int)
    requires c.Valid() && !c.level.Raid1? && begin <= b && RunData(c, written, data, begin, b)
    ensures RunData(c, written[Bmap(c, b) := data(b)], data, begin, b + 1)
  {
    HoldsBmap(c, b);
    var now := written[Bmap(c, b) := data(b)];
    forall l
      ensures l in now <==> InRun(c, l, begin, b + 1)
    {
      if InRun(c, l, begin, b + 1) {
        LayoutBijection(c, Holds(c, l).bnum, l);
      }
    }
  }

  /** After the run is written, exactly its logical blocks have changed. */
  lemma RunDataLogical(c: Config, s: Store, t: Store, written: map<Loc, Block>, data: int -> Block,
                       begin: int, end: int, b: int)
    requires c.Valid() && !c.level.Raid1? && b >= 0
    requires RunData(c, written, data, begin, end) && Overwritten(s, t, written)
    ensures Logical(c, t, b) == if begin <= b < end then data(b) else Logical(c, s, b)
  {
    HoldsBmap(c, b);
  }

  // ---------- a partial-stripe write ----------

  /** The values the new parity at an offset is computed from have been read or written. */
  ghost predicate ParityInputs(subtractive: bool, read: map<Loc, Block>, written: map<Loc, Block>,
                               p: int, off: int, n: nat)
  {
    if subtractive then
      && Loc(p, off) in read
      && forall d :: 0 <= d < n && Loc(d, off) in written ==> Loc(d, off) in read
    else forall d :: 0 <= d < n && d != p ==> Loc(d, off) in written || Loc(d, off) in read
  }

  ghost function NewParity(subtractive: bool, read: map<Loc, Block>, written: map<Loc, Block>,
                           p: int, off: int, n: nat): Block
    requires ParityInputs(subtractive, read, written, p, off, n)
  {
    if subtractive then SubtractiveParity(read, written, p, off, n) else AdditiveParity(read, written, p, off, n)
  }

  /** What the read phase of doPartialWrite has fetched. */
  ghost predicate ReadPhase(c: Config, s: Store, stripe: int, begin: int, end: int, read: map<Loc, Block>)
    requires c.Valid() && c.HasParity()
  {
    && (forall l :: l in read ==> read[l] == s[l])
    && if Subtractive(c, begin, end) then
         && (forall b :: begin <= b < end ==> Bmap(c, b) in read)
         && (forall off :: off in Touched(c, begin, end) ==> Loc(Pmap(c, stripe), off) in read)
       else
         && (forall b :: stripe * c.BlocksInStripe() <= b < begin ==> Bmap(c, b) in read)
         && (forall b :: end <= b < stripe * c.BlocksInStripe() + c.BlocksInStripe() ==> Bmap(c, b) in read)
  }

  /** The read phase and the data writes give every input of every parity block. */
  lemma ReadPhaseSuffices(c: Config, s: Store, stripe: int, begin: int, end: int, data: int -> Block,
                          read: map<Loc, Block>, written: map<Loc, Block>)
    requires c.Valid() && c.HasParity() && InStripe(c, stripe, begin, end)
    requires ReadPhase(c, s, stripe, begin, end, read) && RunData(c, written, data, begin, end)
    ensures forall off :: off in Touched(c, begin, end) ==>
              ParityInputs(Subtractive(c, begin, end), read, written, Pmap(c, stripe), off, c.numDisks)
  {
    forall off, d | off in Touched(c, begin, end) && 0 <= d < c.numDisks && d != Pmap(c, stripe)
      ensures Loc(d, off) in read || (Loc(d, off) in written <==> !Subtractive(c, begin, end))
    {
      TouchedInStripe(c, stripe, begin, end, off);
      RowBlock(c, stripe, Loc(d, off));
    }
  }

  /** The store after the parity blocks of the given offsets are written too. */
  ghost predicate ParityWritten(mid: Store, t: Store, p: int, parity: map<int, Block>) {
    forall l: Loc :: t[l] == if l.disk == p && l.off in parity then parity[l.off] else mid[l]
  }

  /** parity holds, for the touched offsets seen so far, what the program's I/Os let it compute. */
  ghost predicate ParityComputed(c: Config, stripe: int, begin: int, end: int, read: map<Loc, Block>,
                                 written: map<Loc, Block>, parity: map<int, Block>)
    requires c.Valid() && c.HasParity()
  {
    var sub := Subtractive(c, begin, end);
    var p := Pmap(c, stripe);
    forall off :: off in parity ==>
      && ParityInputs(sub, read, written, p, off, c.numDisks)
      && parity[off] == NewParity(sub, read, written, p, off, c.numDisks)
  }

  /** Writing the next parity block extends both. */
  lemma ParityStep(c: Config, stripe: int, begin: int, end: int, read: map<Loc, Block>, written: map<Loc, Block>,
                   mid: Store, t: Store, parity: map<int, Block>, off: int)
    requires c.Valid() && c.HasParity() && ParityWritten(mid, t, Pmap(c, stripe), parity)
    requires ParityInputs(Subtractive(c, begin, end), read, written, Pmap(c, stripe), off, c.numDisks)
    requires ParityComputed(c, stripe, begin, end, read, written, parity)
    ensures var p := Pmap(c, stripe);
            var v := NewParity(Subtractive(c, begin, end), read, written, p, off, c.numDisks);
            && ParityComputed(c, stripe, begin, end, read, written, parity[off := v])
            && ParityWritten(mid, t[Loc(p, off) := v], p, parity[off := v])
  {
  }

  /** One row of the stripe after a partial write. */
  lemma RowAfter(c: Config, s: Store, mid: Store, t: Store, stripe: int, begin: int, end: int,
                 data: int -> Block, read: map<Loc, Block>, written: map<Loc, Block>,
                 parity: map<int, Block>, off: int)
    requires c.Valid() && c.HasParity() && InStripe(c, stripe, begin, end) && off >= 0
    requires ReadPhase(c, s, stripe, begin, end, read) && RunData(c, written, data, begin, end)
    requires Overwritten(s, mid, written) && ParityWritten(mid, t, Pmap(c, stripe), parity)
    requires forall o :: o in parity <==> o in Touched(c, begin, end)
    requires ParityComputed(c, stripe, begin, end, read, written, parity)
    requires ParityRow(c, s, off)
    ensures ParityRow(c, t, off)
  {
    var p := Pmap(c, stripe);
    var n := c.numDisks;
    if off in parity {
      TouchedInStripe(c, stripe, begin, end, off);
      PmapValue(c, stripe);
      ParityPlace(c, Loc(p, off), stripe);
      XorOfOthersFrame(mid, t, off, n, p);
      if Subtractive(c, begin, end) {
        SubtractiveIsParity(s, mid, read, written, p, off, n);
      } else {
        AdditiveIsParity(s, mid, read, written, p, off, n);
      }
    } else {
      forall d | 0 <= d < n
        ensures Loc(d, off) !in written
      {
        if Loc(d, off) in written {
          var b := Holds(c, Loc(d, off)).bnum;
          BmapHolds(c, Loc(d, off));
          TouchedCovers(c, stripe, begin, end, b);
        }
      }
      PmapValue(c, off / c.chunkSize);
      XorOfOthersFrame(s, t, off, n, Pmap(c, off / c.chunkSize));
    }
  }

  /** doPartialWrite stores the new data, leaves other logical blocks alone, and keeps parity right. */
  lemma PartialWriteCorrect(c: Config, s: Store, mid: Store, t: Store, stripe: int, begin: int, end: int,
                            data: int -> Block, read: map<Loc, Block>, written: map<Loc, Block>,
                            parity: map<int, Block>)
    requires c.Valid() && c.HasParity() && InStripe(c, stripe, begin, end)
    requires ReadPhase(c, s, stripe, begin, end, read) && RunData(c, written, data, begin, end)
    requires Overwritten(s, mid, written) && ParityWritten(mid, t, Pmap(c, stripe), parity)
    requires forall o :: o in parity <==> o in Touched(c, begin, end)
    requires ParityComputed(c, stripe, begin, end, read, written, parity)
    ensures ParityConsistent(c, s) ==> ParityConsistent(c, t)
    ensures Stored(c, s, t, data, begin, end)
  {
    if ParityConsistent(c, s) {
      forall off | off >= 0
        ensures ParityRow(c, t, off)
      {
        assert ParityRow(c, s, off);
        RowAfter(c, s, mid, t, stripe, begin, end, data, read, written, parity, off);
      }
    }
    forall b | b >= 0
      ensures Logical(c, t, b) == if begin <= b < end then data(b) else Logical(c, s, b)
    {
      RunDataLogical(c, s, mid, written, data, begin, end, b);
      StripeOfBlock(c, b);
      var l := Bmap(c, b);
      if l.disk == Pmap(c, stripe) && l.off in parity {
        TouchedInStripe(c, stripe, begin, end, l.off);
        assert false;
      }
    }
  }
}
