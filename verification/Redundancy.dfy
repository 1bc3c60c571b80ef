/**
 The contents behind raid.py's physical I/Os. The program moves no data, so contents are ghost.
 A block is the set of its one-bits, whatever the block size; XOR is symmetric difference.
 */
module Redundancy {
  import opened RaidLayout

  type Block = set<nat>

  function Xor(a: Block, b: Block): Block { (a - b) + (b - a) }

  /** What every physical block currently holds. */
  ghost predicate IsStore(m: imap<Loc, Block>) { forall l: Loc :: l in m }

  type Store = m: imap<Loc, Block> | IsStore(m) ghost witness imap l: Loc | true :: {}

  /** XOR over the first n disks of the blocks at one offset. */
  ghost function RowXor(s: Store, off: int, n: nat): Block {
    if n == 0 then {} else Xor(RowXor(s, off, n - 1), s[Loc(n - 1, off)])
  }

  /** The same, leaving out one disk. */
  ghost function XorOfOthers(s: Store, off: int, n: nat, skip: int): Block {
    if n == 0 then {}
    else Xor(XorOfOthers(s, off, n - 1, skip), if n - 1 == skip then {} else s[Loc(n - 1, off)])
  }

  /** Every parity block equals the XOR of the data blocks at its offset. */
  ghost predicate ParityConsistent(c: Config, s: Store)
    requires c.Valid() && c.HasParity()
  {
    forall off :: off >= 0 ==> ParityRow(c, s, off)
  }

  ghost predicate ParityRow(c: Config, s: Store, off: int)
    requires c.Valid() && c.HasParity()
  {
    var p := Pmap(c, off / c.chunkSize);
    s[Loc(p, off)] == XorOfOthers(s, off, c.numDisks, p)
  }

  lemma {:induction false} RowXorSkip(s: Store, off: int, n: nat, skip: int)
    ensures RowXor(s, off, n) == Xor(XorOfOthers(s, off, n, skip), if 0 <= skip < n then s[Loc(skip, off)] else {})
  {
    if n > 0 {
      RowXorSkip(s, off, n - 1, skip);
    }
  }

  /** A row is consistent when it XORs to zero over all disks; so any one block is the XOR of the others. */
  lemma RowRecovers(s: Store, off: int, n: nat, disk: nat)
    requires disk < n
    ensures RowXor(s, off, n) == {} <==> s[Loc(disk, off)] == XorOfOthers(s, off, n, disk)
  {
    RowXorSkip(s, off, n, disk);
  }

  lemma {:induction false} RowXorFrame(s: Store, t: Store, off: int, n: nat)
    requires forall d :: 0 <= d < n ==> s[Loc(d, off)] == t[Loc(d, off)]
    ensures RowXor(s, off, n) == RowXor(t, off, n)
  {
    if n > 0 {
      RowXorFrame(s, t, off, n - 1);
    }
  }

  // ---------- the two ways to compute a new parity block ----------

  /** XOR over the written blocks of a row of old value XOR new value; each old value must have been read. */
  ghost function Delta(read: map<Loc, Block>, written: map<Loc, Block>, off: int, n: nat): Block
    requires forall d :: 0 <= d < n && Loc(d, off) in written ==> Loc(d, off) in read
  {
    if n == 0 then {}
    else
      var l := Loc(n - 1, off);
      Xor(Delta(read, written, off, n - 1), if l in written then Xor(read[l], written[l]) else {})
  }

  /** Subtractive parity: the old parity adjusted by what changes. */
  ghost function SubtractiveParity(read: map<Loc, Block>, written: map<Loc, Block>, p: int, off: int, n: nat): Block
    requires Loc(p, off) in read
    requires forall d :: 0 <= d < n && Loc(d, off) in written ==> Loc(d, off) in read
  {
    Xor(read[Loc(p, off)], Delta(read, written, off, n))
  }

  /** Additive parity: the XOR of all data of the row, each block either written or read. */
  ghost function AdditiveParity(read: map<Loc, Block>, written: map<Loc, Block>, p: int, off: int, n: nat): Block
    requires forall d :: 0 <= d < n && d != p ==> Loc(d, off) in written || Loc(d, off) in read
  {
    if n == 0 then {}
    else
      var l := Loc(n - 1, off);
      Xor(AdditiveParity(read, written, p, off, n - 1),
          if n - 1 == p then {} else if l in written then written[l] else read[l])
  }

  /** t is s after the data writes, on one row, away from the parity disk. */
  ghost predicate RowWritten(s: Store, t: Store, written: map<Loc, Block>, p: int, off: int, n: nat) {
    forall d :: 0 <= d < n && d != p ==>
      t[Loc(d, off)] == if Loc(d, off) in written then written[Loc(d, off)] else s[Loc(d, off)]
  }

  lemma XorSwap(a: Block, b: Block, c: Block, d: Block)
    ensures Xor(Xor(a, b), Xor(c, d)) == Xor(Xor(a, c), Xor(b, d))
  {
  }

  lemma {:induction false} DeltaIsChange(s: Store, t: Store, read: map<Loc, Block>, written: map<Loc, Block>,
                                         p: int, off: int, n: nat)
    requires forall l :: l in read ==> read[l] == s[l]
    requires forall d :: 0 <= d < n && Loc(d, off) in written ==> Loc(d, off) in read
    requires Loc(p, off) !in written && RowWritten(s, t, written, p, off, n)
    ensures XorOfOthers(t, off, n, p) == Xor(XorOfOthers(s, off, n, p), Delta(read, written, off, n))
  {
    if n > 0 {
      DeltaIsChange(s, t, read, written, p, off, n - 1);
      var l := Loc(n - 1, off);
      var was := if n - 1 == p then {} else s[l];
      var now := if n - 1 == p then {} else t[l];
      var change := if l in written then Xor(read[l], written[l]) else {};
      assert now == Xor(was, change);
      XorSwap(XorOfOthers(s, off, n - 1, p), Delta(read, written, off, n - 1), was, change);
    }
  }

  /** Subtractive parity is the XOR of the new data, if the old parity was that of the old data. */
  lemma SubtractiveIsParity(s: Store, t: Store, read: map<Loc, Block>, written: map<Loc, Block>,
                            p: int, off: int, n: nat)
    requires forall l :: l in read ==> read[l] == s[l]
    requires forall d :: 0 <= d < n && Loc(d, off) in written ==> Loc(d, off) in read
    requires Loc(p, off) in read
    requires Loc(p, off) !in written && RowWritten(s, t, written, p, off, n)
    requires s[Loc(p, off)] == XorOfOthers(s, off, n, p)
    ensures SubtractiveParity(read, written, p, off, n) == XorOfOthers(t, off, n, p)
  {
    DeltaIsChange(s, t, read, written, p, off, n);
  }

  /** Additive parity is the XOR of the new data, whatever the old parity was. */
  lemma {:induction false} AdditiveIsParity(s: Store, t: Store, read: map<Loc, Block>, written: map<Loc, Block>,
                                            p: int, off: int, n: nat)
    requires forall l :: l in read ==> read[l] == s[l]
    requires forall d :: 0 <= d < n && d != p ==> Loc(d, off) in written || Loc(d, off) in read
    requires RowWritten(s, t, written, p, off, n)
    ensures AdditiveParity(read, written, p, off, n) == XorOfOthers(t, off, n, p)
  {
    if n > 0 {
      AdditiveIsParity(s, t, read, written, p, off, n - 1);
      var l := Loc(n - 1, off);
      assert n - 1 != p ==> t[l] == if l in written then written[l] else read[l];
    }
  }
}
