/** How long a disk takes over one I/O in the running simulation, from the seek to the end of the transfer. */
module SimService {
  import opened Arithmetic
  import opened SimRequest
  import opened SimState
  import opened SimProofs
  import opened SimTicks
  import opened SimSeek
  import opened SimHistory

  // ---------- other disks do not count ----------

  ghost predicate SameCounts(k: Disk, k': Disk) { k'.readCount == k.readCount && k'.writeCount == k.writeCount }

  ghost function CountsOf(d: int, k: Disk): Sim -> bool {
    (s: Sim) => |s.disks| == DISK_COUNT && 0 <= d < DISK_COUNT && SameCounts(k, s.disks[d])
  }

  lemma SchedulingCounts(s: Sim, d: int)
    requires Inv(s) && 0 <= d < DISK_COUNT
    ensures |GetNextIOs(s).disks| == DISK_COUNT && SameCounts(s.disks[d], GetNextIOs(s).disks[d])
  {
    SchedulingKeeps(CountsOf(d, s.disks[d]), s);
  }

  lemma OtherTick(s: Sim, e: int, d: int)
    requires Ready(s, e) && 0 <= d < DISK_COUNT && d != e
    ensures |TickDisk(s, e).disks| == DISK_COUNT && SameCounts(s.disks[d], TickDisk(s, e).disks[d])
  {
    if EndsNow(s, e) {
      TickEnds(s, e);
      EndOnly(s, e);
      SchedulingCounts(EndedSim(s, e), d);
    } else {
      MoveOnly(s, e);
    }
  }

  lemma {:induction false} PassedCounts(s: Sim, from: nat, d: nat)
    requires Inv(s) && d < from <= DISK_COUNT
    ensures SameCounts(s.disks[d], AnimateFrom(s, from).disks[d])
    decreases DISK_COUNT - from
  {
    if from < DISK_COUNT {
      TickDiskOk(s, from);
      OtherTick(s, from, d);
      PassedCounts(TickDisk(s, from), from + 1, d);
    }
  }

  /** When its turn comes in the disk loop, a busy disk is as it was. */
  lemma {:induction false} ReachTurn(s: Sim, from: nat, d: nat) returns (u: Sim)
    requires Inv(s) && from <= d < DISK_COUNT && !s.disks[d].state.Idle?
    ensures Ready(u, d) && u.disks[d] == s.disks[d] && SameOffsets(s, u) && Inv(TickDisk(u, d))
    ensures AnimateFrom(s, from) == AnimateFrom(TickDisk(u, d), d + 1)
    decreases d - from
  {
    TickDiskOk(s, from);
    if from == d {
      u := s;
    } else {
      TickDiskIsLater(s, from);
      u := ReachTurn(TickDisk(s, from), from + 1, d);
    }
  }

  // ---------- the turn of the disk ----------

  /** One more I/O of the disk's current kind has been counted. */
  ghost predicate OneMoreIO(k: Disk, k': Disk) {
    && k.op.Some?
    && k'.readCount == k.readCount + Flag(k.op.value == OpRead)
    && k'.writeCount == k.writeCount + Flag(k.op.value == OpWrite)
  }

  lemma TurnEnds(u: Sim, d: int)
    requires Ready(u, d) && EndsNow(u, d)
    ensures |TickDisk(u, d).disks| == DISK_COUNT && OneMoreIO(u.disks[d], TickDisk(u, d).disks[d])
  {
    TickEnds(u, d);
    EndOnly(u, d);
    SchedulingCounts(EndedSim(u, d), d);
  }

  /** A transfer with x ticks to go: x - 1 are left, or it ends. */
  lemma TurnTransfers(u: Sim, d: int)
    requires Ready(u, d) && u.disks[d].state.Xfer?
    ensures var k := u.disks[d];
            EndsNow(u, d) == (k.xfer == 1) && k.xfer >= 1
            && (k.xfer > 1 ==>
                  |TickDisk(u, d).disks| == DISK_COUNT && TickDisk(u, d).disks[d] == k.(xfer := k.xfer - 1))
  {
    assert DiskOk(u, d);
  }

  lemma TurnArrives(u: Sim, d: int)
    requires Ready(u, d) && u.disks[d].state.Seek? && u.disks[d].y == YPos(u.reqs[u.disks[d].target].offset)
    ensures EndsNow(u, d) == (TransferTime(u, d) == 1)
    ensures !EndsNow(u, d) ==>
              |TickDisk(u, d).disks| == DISK_COUNT
              && TickDisk(u, d).disks[d] == u.disks[d].(state := Xfer, xfer := TransferTime(u, d) - 1)
  {
  }

  // ---------- which request was served before ----------

  /** The request comes right after the row of the one this disk served before it, or is on row 0 and its first. */
  ghost predicate FollowsOn(s: Sim, d: int)
    requires AllRemember(s) && 0 <= d < DISK_COUNT && !s.disks[d].state.Idle?
  {
    var served := s.disks[d].served;
    s.reqs[served[|served| - 1]].offset == if |served| == 1 then 0 else s.reqs[served[|served| - 2]].offset + 1
  }

  /** The program's record of the last two targets is the end of the history. */
  lemma LastTwo(k: Disk, queue: nat)
    requires Remembers(k, queue) && !k.state.Idle?
    ensures |k.served| >= 1 && k.target == k.served[|k.served| - 1]
    ensures k.last == if |k.served| == 1 then NO_TARGET else k.served[|k.served| - 2]
  {
  }

  lemma TransferTakes(s: Sim, u: Sim, d: int)
    requires AllRemember(s) && Shape(u) && 0 <= d < DISK_COUNT && SameOffsets(s, u) && u.disks[d] == s.disks[d]
    requires !s.disks[d].state.Idle?
    ensures TransferTime(u, d) == if FollowsOn(s, d) then 1 else 10
  {
    LastTwo(s.disks[d], |s.reqs|);
  }

  // ---------- one tick ----------

  /** If the I/O ends at its disk's turn, the rest of the loop does not change what is counted for the disk. */
  lemma EndsInLoop(u: Sim, d: nat)
    requires d < DISK_COUNT && Ready(u, d) && EndsNow(u, d) && Inv(TickDisk(u, d))
    ensures OneMoreIO(u.disks[d], AnimateFrom(TickDisk(u, d), d + 1).disks[d])
  {
    TurnEnds(u, d);
    PassedCounts(TickDisk(u, d), d + 1, d);
  }

  lemma LoopTransfers(s: Sim, d: nat)
    requires Inv(s) && d < DISK_COUNT && s.disks[d].state.Xfer?
    ensures var k, k' := s.disks[d], AnimateFrom(s, 0).disks[d];
            k.xfer >= 1 && if k.xfer > 1 then k' == k.(xfer := k.xfer - 1) else OneMoreIO(k, k')
  {
    var u := ReachTurn(s, 0, d);
    TurnTransfers(u, d);
    if s.disks[d].xfer > 1 {
      PassedDisk(TickDisk(u, d), d + 1, d);
    } else {
      EndsInLoop(u, d);
    }
  }

  lemma TickTransfers(s: Sim, d: nat)
    requires Inv(s) && Live(s) && d < DISK_COUNT && s.disks[d].state.Xfer?
    ensures var k, t := s.disks[d], Animate(s);
            && Live(t) && k.xfer >= 1
            && (if k.xfer > 1 then t.disks[d] == k.(xfer := k.xfer - 1) else OneMoreIO(k, t.disks[d]))
  {
    BusyRuns(s, d);
    TickOk(s);
    LoopTransfers(s, d);
  }

  /** The turn of a disk that has arrived, and what follows in the loop. */
  lemma ArrivesInLoop(s: Sim, u: Sim, d: nat)
    requires d < DISK_COUNT && AllRemember(s) && Ready(u, d) && Inv(TickDisk(u, d)) && SameOffsets(s, u)
    requires u.disks[d] == s.disks[d] && s.disks[d].state.Seek?
    requires u.disks[d].y == YPos(u.reqs[u.disks[d].target].offset)
    ensures var k, k' := s.disks[d], AnimateFrom(TickDisk(u, d), d + 1).disks[d];
            if FollowsOn(s, d) then OneMoreIO(k, k') else k' == k.(state := Xfer, xfer := 9)
  {
    TransferTakes(s, u, d);
    TurnArrives(u, d);
    if FollowsOn(s, d) {
      EndsInLoop(u, d);
    } else {
      PassedDisk(TickDisk(u, d), d + 1, d);
    }
  }

  lemma LoopArrives(s: Sim, d: nat)
    requires Inv(s) && d < DISK_COUNT && s.disks[d].state.Seek? && AllRemember(s)
    requires s.disks[d].y == YPos(s.reqs[s.disks[d].target].offset)
    ensures var k, k' := s.disks[d], AnimateFrom(s, 0).disks[d];
            if FollowsOn(s, d) then OneMoreIO(k, k') else k' == k.(state := Xfer, xfer := 9)
  {
    var u := ReachTurn(s, 0, d);
    ArrivesInLoop(s, u, d);
  }

  lemma TickArrives(s: Sim, d: nat)
    requires Seeking(s, d) && s.disks[d].y == GoalOf(s, d) && AllRemember(s)
    ensures var k, t := s.disks[d], Animate(s);
            && Live(t)
            && if FollowsOn(s, d) then OneMoreIO(k, t.disks[d]) else t.disks[d] == k.(state := Xfer, xfer := 9)
  {
    BusyRuns(s, d);
    TickOk(s);
    LoopArrives(s, d);
  }

  // ---------- the whole I/O ----------

  /** After n of the ticks a transfer has to go it is still under way, n ticks further, or has just ended. */
  lemma {:induction false} TransferEnds(s: Sim, d: nat, n: nat)
    requires Inv(s) && Live(s) && d < DISK_COUNT && s.disks[d].state.Xfer? && n <= s.disks[d].xfer
    ensures var k, k' := s.disks[d], Ticks(s, n).disks[d];
            if n < k.xfer then k' == k.(xfer := k.xfer - n) else OneMoreIO(k, k')
    decreases n
  {
    assert DiskOk(s, d);
    if n > 0 {
      TickTransfers(s, d);
      if n > 1 {
        TransferEnds(Animate(s), d, n - 1);
      }
    }
  }

  ghost function TransferTicks(s: Sim, d: int): nat
    requires AllRemember(s) && 0 <= d < DISK_COUNT && !s.disks[d].state.Idle?
  {
    if FollowsOn(s, d) then 1 else 10
  }

  /** The ticks from the arrival on, the one in which the head is found on its target included. */
  lemma ArrivedServes(s: Sim, d: nat, n: nat)
    requires Seeking(s, d) && s.disks[d].y == GoalOf(s, d) && AllRemember(s) && n <= TransferTicks(s, d)
    ensures var k, k' := s.disks[d], Ticks(s, n).disks[d];
            if n < TransferTicks(s, d) then SameCounts(k, k') else OneMoreIO(k, k')
  {
    if n > 0 {
      TickArrives(s, d);
      if n > 1 {
        TransferEnds(Animate(s), d, n - 1);
      }
    }
  }

  lemma SameFollowing(s: Sim, t: Sim, d: int)
    requires AllRemember(s) && AllRemember(t) && Later(s, t) && 0 <= d < DISK_COUNT
    requires !s.disks[d].state.Idle? && !t.disks[d].state.Idle? && t.disks[d].served == s.disks[d].served
    ensures FollowsOn(t, d) == FollowsOn(s, d)
  {
  }

  /** A disk a moves away from its target, and heading for it. */
  ghost predicate Nears(s: Sim, d: int, a: nat) {
    Seeking(s, d) && Towards(s.disks[d], s.speed, GoalOf(s, d)) && Distance(s, d) == a * s.speed
  }

  /** Up to its end the seek is under way, and at its end the head stands on the target. */
  lemma SeekPasses(s: Sim, d: nat, a: nat, n: nat)
    requires Nears(s, d, a) && n <= a
    ensures var t := Ticks(s, n);
            && Seeking(t, d) && t.disks[d] == s.disks[d].(y := t.disks[d].y)
            && (n == a ==> t.disks[d].y == GoalOf(t, d))
  {
    MulMonotone(n, a, s.speed);
    SeekProgress(s, d, n);
  }

  lemma SameTransfer(s: Sim, d: nat, n: nat)
    requires Inv(s) && AllRemember(s) && d < DISK_COUNT && !s.disks[d].state.Idle?
    requires var k := Ticks(s, n).disks[d];
             !k.state.Idle? && k.served == s.disks[d].served
    ensures AllRemember(Ticks(s, n)) && TransferTicks(Ticks(s, n), d) == TransferTicks(s, d)
  {
    TicksRemember(s, n);
    TicksAreLater(s, n);
    SameFollowing(s, Ticks(s, n), d);
  }

  /** The state in which the head has arrived. */
  lemma Arrival(s: Sim, d: nat, a: nat) returns (t: Sim)
    requires Nears(s, d, a) && AllRemember(s)
    ensures Inv(s) && t == Ticks(s, a)
    ensures Seeking(t, d) && t.disks[d] == s.disks[d].(y := t.disks[d].y) && t.disks[d].y == GoalOf(t, d)
    ensures AllRemember(t) && TransferTicks(t, d) == TransferTicks(s, d)
  {
    t := Ticks(s, a);
    SeekPasses(s, d, a, a);
    SameTransfer(s, d, a);
  }

  /** j ticks after the arrival. */
  lemma SinceArrival(s: Sim, d: nat, a: nat, j: nat) returns (u: Sim)
    requires Nears(s, d, a) && AllRemember(s) && j <= TransferTicks(s, d)
    ensures Inv(s) && u == Ticks(s, a + j)
    ensures if j < TransferTicks(s, d) then SameCounts(s.disks[d], u.disks[d]) else OneMoreIO(s.disks[d], u.disks[d])
  {
    var t := Arrival(s, d, a);
    u := Ticks(t, j);
    ArrivedServes(t, d, j);
    TicksAdd(s, a, j);
  }

  lemma DuringSeek(s: Sim, d: nat, a: nat, n: nat) returns (u: Sim)
    requires Nears(s, d, a) && n <= a
    ensures Inv(s) && u == Ticks(s, n) && |u.disks| == DISK_COUNT && SameCounts(s.disks[d], u.disks[d])
  {
    u := Ticks(s, n);
    SeekPasses(s, d, a, n);
  }

  /** While the seek has moves left, or the transfer ticks, nothing is counted. */
  lemma ServiceGoesOn(s: Sim, d: nat, a: nat, n: nat) returns (u: Sim)
    requires Nears(s, d, a) && AllRemember(s) && n < a + TransferTicks(s, d)
    ensures Inv(s) && u == Ticks(s, n) && |u.disks| == DISK_COUNT && SameCounts(s.disks[d], u.disks[d])
  {
    if n < a {
      u := DuringSeek(s, d, a, n);
    } else {
      u := SinceArrival(s, d, a, n - a);
    }
  }

  /**
   An I/O whose seek has a moves left ends after a ticks and those of the transfer: one more if its request comes
   right after the row of the one the disk served before, ten more if not.
   */
  lemma ServiceEnds(s: Sim, d: nat, a: nat) returns (u: Sim)
    requires Nears(s, d, a) && AllRemember(s)
    ensures Inv(s) && u == Ticks(s, a + TransferTicks(s, d))
    ensures |u.disks| == DISK_COUNT && OneMoreIO(s.disks[d], u.disks[d])
  {
    u := SinceArrival(s, d, a, TransferTicks(s, d));
  }

  /** The I/O that the disk is busy with ends after so many ticks, and not sooner. */
  ghost predicate IOEndsAfter(s: Sim, d: nat, ticks: nat)
    requires Inv(s) && d < DISK_COUNT
  {
    && (forall i: nat :: i < ticks ==> SameCounts(s.disks[d], Ticks(s, i).disks[d]))
    && OneMoreIO(s.disks[d], Ticks(s, ticks).disks[d])
  }

  lemma ServiceTakes(s: Sim, d: nat, a: nat)
    requires Nears(s, d, a) && AllRemember(s)
    ensures IOEndsAfter(s, d, a + TransferTicks(s, d))
  {
    forall i: nat | i < a + TransferTicks(s, d)
      ensures SameCounts(s.disks[d], Ticks(s, i).disks[d])
    {
      var u := ServiceGoesOn(s, d, a, i);
    }
    var u := ServiceEnds(s, d, a);
  }
}
