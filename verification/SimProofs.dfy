/** Every step of the simulator keeps its invariant and uses up a measure. */
module SimProofs {
  import opened Arithmetic
  import opened Sums
  import opened SimRequest
  import opened SimState

  // ---------- seeking ----------

  lemma LatticeStep(speed: int, x: int, goal: int)
    requires speed >= 1 && x % speed == 0 && goal % speed == 0 && x < goal
    ensures x + speed <= goal
    ensures (x + speed) % speed == 0 && (goal - speed) % speed == 0
  {
    DivModParts(x, speed);
    DivModParts(goal, speed);
    var k := goal / speed - x / speed;
    assert goal - x == k * speed;
    if k <= 0 {
      MulMonotone(k, 0, speed);
    } else {
      MulMonotone(1, k, speed);
    }
    ModShift(x, 1, speed);
    ModShift(goal, -1, speed);
  }

  /** One move brings a head on the lattice nearer by exactly the seek speed, and never past its target. */
  lemma HeadMove(speed: int, y: int, offset: int, delta: int)
    requires RowOk(speed, offset) && HeadOk(speed, y) && 0 <= offset < 20 && y != YPos(offset)
    requires Heading(speed, y, delta, offset)
    ensures Heading(speed, y + delta, delta, offset)
    ensures Abs(YPos(offset) - (y + delta)) == Abs(YPos(offset) - y) - speed
  {
    if y < YPos(offset) {
      LatticeStep(speed, y - 100, YPos(offset) - 100);
    } else {
      LatticeStep(speed, YPos(offset) - 100, y - 100);
    }
  }

  // ---------- the measure ----------

  /** Ticks a disk may still need for its current I/O, with slack. */
  ghost function Effort(s: Sim, d: int): int
    requires Shape(s) && 0 <= d < DISK_COUNT
  {
    var k := s.disks[d];
    match k.state
    case Idle => 0
    case Seek => Abs(YPos(s.reqs[k.target].offset) - k.y) + 11
    case Xfer => k.xfer
  }

  /** 400 for every I/O not yet started, plus what the disks still have to do for those in flight. */
  ghost function Measure(s: Sim): int
    requires Shape(s)
  {
    400 * Total(s.reqs, LeftIn(s.m)) + Effort(s, 0) + Effort(s, 1) + Effort(s, 2) + Effort(s, 3)
  }

  lemma MeasureNonNegative(s: Sim)
    requires Inv(s)
    ensures Measure(s) >= 0
  {
    assert DiskOk(s, 0) && DiskOk(s, 1) && DiskOk(s, 2) && DiskOk(s, 3);
  }

  /**
   What a request keeps through a run: what it asks for, whether its parity disk was ever written, and, if no
   head can stop on its row, that it is not reported.
   */
  ghost predicate LaterReq(speed: int, r: Req, r': Req) {
    && SameRequest(r, r')
    && (OffHome(r) ==> OffHome(r'))
    && (!RowOk(speed, r.offset) ==> r'.reports == r.reports)
  }

  /** A write has begun on the second disk of the list. */
  ghost predicate OffHome(r: Req) { r.history.Has(Begin(r.disk1, OpWrite)) }

  /** A state of the same simulation, later on. */
  ghost predicate Later(s: Sim, t: Sim) {
    && t.m == s.m && t.speed == s.speed && |t.reqs| == |s.reqs|
    && forall i :: 0 <= i < |s.reqs| ==> LaterReq(s.speed, s.reqs[i], t.reqs[i])
  }

  lemma LaterReflexive(s: Sim)
    ensures Later(s, s)
  {
  }

  lemma LaterTransitive(s: Sim, t: Sim, u: Sim)
    requires Later(s, t) && Later(t, u)
    ensures Later(s, u) && RowsOk(u) == RowsOk(s)
  {
    forall i | 0 <= i < |s.reqs|
      ensures LaterReq(s.speed, s.reqs[i], u.reqs[i])
      ensures RowOk(s.speed, u.reqs[i].offset) == RowOk(s.speed, s.reqs[i].offset)
    {
      assert LaterReq(s.speed, s.reqs[i], t.reqs[i]) && LaterReq(s.speed, t.reqs[i], u.reqs[i]);
    }
  }

  /** Busy disks keep their state. */
  ghost predicate BusyKept(s: Sim, t: Sim)
    requires |s.disks| == DISK_COUNT && |t.disks| == DISK_COUNT
  {
    forall d :: 0 <= d < DISK_COUNT && !s.disks[d].state.Idle? ==> t.disks[d] == s.disks[d]
  }

  /** What scheduling may change: nothing but requests not yet finished and idle disks. */
  ghost predicate Extends(s: Sim, t: Sim)
    requires |s.disks| == DISK_COUNT
  {
    && t == s.(disks := t.disks, reqs := t.reqs)
    && |t.disks| == DISK_COUNT && BusyKept(s, t) && Later(s, t)
  }

  /** What each part of the scheduler does. */
  ghost predicate Advances(s: Sim, t: Sim)
    requires Inv(s)
  {
    Inv(t) && Extends(s, t) && Measure(t) <= Measure(s)
  }

  lemma AdvancesTransitive(s: Sim, t: Sim, u: Sim)
    requires Inv(s) && Advances(s, t) && Advances(t, u)
    ensures Advances(s, u)
  {
    LaterTransitive(s, t, u);
  }

  lemma AdvancesReflexive(s: Sim)
    requires Inv(s)
    ensures Advances(s, s)
  {
  }

  // ---------- one I/O starts ----------

  ghost predicate Starts(s: Sim, disk: int, index: int) {
    && 0 <= disk < DISK_COUNT && 0 <= index < |s.reqs|
    && Inv(s) && s.disks[disk].state.Idle? && Offer(s.m, s.reqs[index], disk).Some?
  }

  ghost function StartedSim(s: Sim, disk: int, index: int): Sim
    requires Starts(s, disk, index)
  {
    var (r', op) := Offer(s.m, s.reqs[index], disk).value;
    StartRequest(s, disk, index, r', op)
  }

  /** The disk that starts sets off from its idle place for the row of the request. */
  lemma StartDeparts(s: Sim, disk: int, index: int)
    requires Starts(s, disk, index)
    ensures var t := StartedSim(s, disk, index);
            Shape(t) && DiskOk(t, disk) && Effort(s, disk) == 0 && Effort(t, disk) < 400
  {
    OfferOk(s.m, s.reqs[index], disk);
    assert DiskOk(s, disk) && ReqOk(s.m, s.reqs[index]);
  }

  /** The request another disk works for is as it was, or at least that disk's entry of it. */
  lemma StartKeepsTarget(s: Sim, disk: int, index: int, d: int)
    requires Starts(s, disk, index) && 0 <= d < DISK_COUNT && d != disk && !s.disks[d].state.Idle?
    ensures var r, r' := s.reqs[s.disks[d].target], StartedSim(s, disk, index).reqs[s.disks[d].target];
            && r'.disk0 == r.disk0 && r'.disk1 == r.disk1 && r'.offset == r.offset
            && Active(s.m, r', r.IsFirst(d)) && r'.Get(r.IsFirst(d)) == r.Get(r.IsFirst(d))
  {
    OfferOk(s.m, s.reqs[index], disk);
    assert DiskOk(s, d) && ReqOk(s.m, s.reqs[index]);
  }

  /** Every other disk goes on as before. */
  lemma StartKeepsDisk(s: Sim, disk: int, index: int, d: int)
    requires Starts(s, disk, index) && 0 <= d < DISK_COUNT && d != disk
    ensures var t := StartedSim(s, disk, index);
            Shape(t) && DiskOk(t, d) && Effort(t, d) == Effort(s, d)
  {
    assert DiskOk(s, d);
    if !s.disks[d].state.Idle? {
      StartKeepsTarget(s, disk, index, d);
    }
  }

  lemma StartIsLater(s: Sim, disk: int, index: int)
    requires Starts(s, disk, index)
    ensures ReqsOk(StartedSim(s, disk, index)) && Extends(s, StartedSim(s, disk, index))
  {
    OfferOk(s.m, s.reqs[index], disk);
  }

  lemma StartKeepsAttended(s: Sim, disk: int, index: int)
    requires Starts(s, disk, index)
    ensures var t := StartedSim(s, disk, index);
            forall i, e :: 0 <= i < |t.reqs| ==> Attended(t, i, e)
  {
    var t := StartedSim(s, disk, index);
    OfferOk(s.m, s.reqs[index], disk);
    forall i, e | 0 <= i < |t.reqs|
      ensures Attended(t, i, e)
    {
      assert Attended(s, i, e);
    }
  }

  lemma StartKeepsLinks(s: Sim, disk: int, index: int)
    requires Starts(s, disk, index)
    ensures LinksOk(StartedSim(s, disk, index))
  {
    StartDeparts(s, disk, index);
    StartKeepsAttended(s, disk, index);
    forall d | 0 <= d < DISK_COUNT && d != disk {
      StartKeepsDisk(s, disk, index, d);
    }
  }

  lemma StartKeepsCounts(s: Sim, disk: int, index: int)
    requires Starts(s, disk, index)
    ensures CountsOk(StartedSim(s, disk, index))
    ensures Total(StartedSim(s, disk, index).reqs, LeftIn(s.m)) == Total(s.reqs, LeftIn(s.m)) - 1
  {
    var r' := Offer(s.m, s.reqs[index], disk).value.0;
    OfferOk(s.m, s.reqs[index], disk);
    TotalUpdate(s.reqs, index, r', PendingIn(s.m));
    TotalUpdate(s.reqs, index, r', LeftIn(s.m));
    TotalUpdate(s.reqs, index, r', Reported);
  }

  lemma StartUsesMeasure(s: Sim, disk: int, index: int)
    requires Starts(s, disk, index)
    ensures var t := StartedSim(s, disk, index);
            && Shape(t) && Measure(t) < Measure(s)
  {
    StartDeparts(s, disk, index);
    StartKeepsCounts(s, disk, index);
    forall d | 0 <= d < DISK_COUNT && d != disk {
      StartKeepsDisk(s, disk, index, d);
    }
  }

  lemma StartOk(s: Sim, disk: int, index: int)
    requires Starts(s, disk, index)
    ensures var t := StartedSim(s, disk, index);
            Inv(t) && Extends(s, t) && Measure(t) < Measure(s)
  {
    StartIsLater(s, disk, index);
    StartKeepsLinks(s, disk, index);
    StartKeepsCounts(s, disk, index);
    StartUsesMeasure(s, disk, index);
  }

  // ---------- the scheduler ----------

  lemma TryStartOk(s: Sim, disk: int, index: int)
    requires Inv(s) && 0 <= disk < DISK_COUNT && 0 <= index < |s.reqs|
    ensures Advances(s, TryStart(s, disk, index))
  {
    if (s.window == -1 || index < s.window) && s.disks[disk].state.Idle? && Offer(s.m, s.reqs[index], disk).Some? {
      StartOk(s, disk, index);
    } else {
      AdvancesReflexive(s);
    }
  }

  /** What one step of the scheduler's loops keeps, the loops keep. */
  ghost predicate KeptByTries(P: Sim -> bool, disk: int) {
    forall t, index :: TryApplies(t, disk, index) && P(t) ==> P(TryStart(t, disk, index))
  }

  ghost predicate TryApplies(t: Sim, disk: int, index: int) {
    |t.disks| == DISK_COUNT && 0 <= disk < DISK_COUNT && 0 <= index < |t.reqs|
  }

  lemma {:induction false} ScheduleDiskKeeps(P: Sim -> bool, s: Sim, disk: int, n: nat)
    requires |s.disks| == DISK_COUNT && 0 <= disk < DISK_COUNT && n <= |s.reqs|
    requires P(s) && KeptByTries(P, disk)
    ensures P(ScheduleDisk(s, disk, n))
  {
    if n > 0 {
      ScheduleDiskKeeps(P, s, disk, n - 1);
      assert TryApplies(ScheduleDisk(s, disk, n - 1), disk, n - 1);
    }
  }

  lemma {:induction false} ScheduleDisksKeep(P: Sim -> bool, s: Sim, n: nat)
    requires |s.disks| == DISK_COUNT && n <= DISK_COUNT
    requires P(s) && forall d :: 0 <= d < n ==> KeptByTries(P, d)
    ensures P(ScheduleDisks(s, n))
  {
    if n > 0 {
      ScheduleDisksKeep(P, s, n - 1);
      ScheduleDiskKeeps(P, ScheduleDisks(s, n - 1), n - 1, |s.reqs|);
    }
  }

  ghost function AdvancedFrom(s: Sim): Sim -> bool
    requires Inv(s)
  {
    (t: Sim) => Advances(s, t)
  }

  lemma AdvancesOneMore(s: Sim, t: Sim, disk: int, index: int)
    requires Inv(s) && Advances(s, t) && 0 <= disk < DISK_COUNT && 0 <= index < |t.reqs|
    ensures Advances(s, TryStart(t, disk, index))
  {
    TryStartOk(t, disk, index);
    AdvancesTransitive(s, t, TryStart(t, disk, index));
  }

  lemma AdvancesKept(s: Sim, disk: int)
    requires Inv(s) && 0 <= disk < DISK_COUNT
    ensures KeptByTries(AdvancedFrom(s), disk)
  {
    forall t, index | TryApplies(t, disk, index) && Advances(s, t)
      ensures Advances(s, TryStart(t, disk, index))
    {
      AdvancesOneMore(s, t, disk, index);
    }
  }

  lemma ScheduleDiskOk(s: Sim, disk: int, n: nat)
    requires Inv(s) && 0 <= disk < DISK_COUNT && n <= |s.reqs|
    ensures Advances(s, ScheduleDisk(s, disk, n))
  {
    AdvancesReflexive(s);
    AdvancesKept(s, disk);
    ScheduleDiskKeeps(AdvancedFrom(s), s, disk, n);
  }

  lemma ScheduleDisksOk(s: Sim, n: nat)
    requires Inv(s) && n <= DISK_COUNT
    ensures Advances(s, ScheduleDisks(s, n))
  {
    AdvancesReflexive(s);
    forall d | 0 <= d < n
      ensures KeptByTries(AdvancedFrom(s), d)
    {
      AdvancesKept(s, d);
    }
    ScheduleDisksKeep(AdvancedFrom(s), s, n);
  }

  /** A disk left idle was offered nothing by any request of the window. */
  ghost predicate NoOffers(s: Sim, disk: int, n: nat)
    requires n <= |s.reqs|
  {
    forall i :: 0 <= i < n && (s.window == -1 || i < s.window) ==> Offer(s.m, s.reqs[i], disk).None?
  }

  lemma {:induction false} NothingOffered(s: Sim, disk: int, n: nat)
    requires |s.disks| == DISK_COUNT && 0 <= disk < DISK_COUNT && n <= |s.reqs| && NoOffers(s, disk, n)
    ensures ScheduleDisk(s, disk, n) == s
  {
    if n > 0 {
      NothingOffered(s, disk, n - 1);
    }
  }

  /** Queue entry i is the first in the window that has something for the disk, and t is s with that begun. */
  ghost predicate BeginsFirst(s: Sim, t: Sim, disk: int, i: int)
    requires |s.disks| == DISK_COUNT && 0 <= disk < DISK_COUNT
  {
    && 0 <= i < |s.reqs| && (s.window == -1 || i < s.window) && NoOffers(s, disk, i)
    && Offer(s.m, s.reqs[i], disk).Some?
    && var (r', op) := Offer(s.m, s.reqs[i], disk).value;
       t == StartRequest(s, disk, i, r', op)
  }

  /** t is s with nothing begun, no request having anything for the disk, or with the first one that has begun. */
  ghost predicate Serves(s: Sim, t: Sim, disk: int, n: nat)
    requires |s.disks| == DISK_COUNT && 0 <= disk < DISK_COUNT && n <= |s.reqs|
  {
    (NoOffers(s, disk, n) && t == s) || exists i :: 0 <= i < n && BeginsFirst(s, t, disk, i)
  }

  lemma ServesOneMore(s: Sim, t: Sim, disk: int, n: nat)
    requires |s.disks| == DISK_COUNT && 0 <= disk < DISK_COUNT && n < |s.reqs| && s.disks[disk].state.Idle?
    requires Serves(s, t, disk, n) && |t.disks| == DISK_COUNT && |t.reqs| == |s.reqs|
    ensures Serves(s, TryStart(t, disk, n), disk, n + 1)
  {
    if NoOffers(s, disk, n) && t == s {
      if (s.window == -1 || n < s.window) && Offer(s.m, s.reqs[n], disk).Some? {
        assert BeginsFirst(s, TryStart(s, disk, n), disk, n);
      }
    } else {
      var i :| 0 <= i < n && BeginsFirst(s, t, disk, i);
      assert TryStart(t, disk, n) == t;
    }
  }

  /** An idle disk begins what the first request of the window has for it, or nothing if none has anything. */
  lemma {:induction false} TakesFirst(s: Sim, disk: int, n: nat)
    requires |s.disks| == DISK_COUNT && 0 <= disk < DISK_COUNT && n <= |s.reqs| && s.disks[disk].state.Idle?
    ensures Serves(s, ScheduleDisk(s, disk, n), disk, n)
  {
    if n > 0 {
      TakesFirst(s, disk, n - 1);
      ServesOneMore(s, ScheduleDisk(s, disk, n - 1), disk, n - 1);
    }
  }

  lemma {:induction false} IdleAfterDisk(s: Sim, disk: int, n: nat)
    requires |s.disks| == DISK_COUNT && 0 <= disk < DISK_COUNT && n <= |s.reqs|
    requires ScheduleDisk(s, disk, n).disks[disk].state.Idle?
    ensures ScheduleDisk(s, disk, n) == s && NoOffers(s, disk, n)
  {
    if n > 0 {
      IdleAfterDisk(s, disk, n - 1);
    }
  }

  lemma {:induction false} IdleAfterDisks(s: Sim, n: nat)
    requires |s.disks| == DISK_COUNT && n <= DISK_COUNT
    requires forall d :: 0 <= d < n ==> ScheduleDisks(s, n).disks[d].state.Idle?
    ensures ScheduleDisks(s, n) == s && forall d :: 0 <= d < n ==> NoOffers(s, d, |s.reqs|)
  {
    if n > 0 {
      var t := ScheduleDisks(s, n);
      assert t == ScheduleDisk(ScheduleDisks(s, n - 1), n - 1, |s.reqs|) && t.disks[n - 1].state.Idle?;
      IdleAfterDisk(ScheduleDisks(s, n - 1), n - 1, |s.reqs|);
      IdleAfterDisks(s, n - 1);
    }
  }

  /** The first request with something pending lies in the window: all before it have been reported. */
  lemma FirstUnfinished(s: Sim) returns (i: nat)
    requires Inv(s) && s.count != s.work
    ensures i < |s.reqs| && Pending(s.m, s.reqs[i]) > 0
    ensures s.window == -1 || i < s.window
  {
    i := FirstPositive(s.reqs, PendingIn(s.m));
    forall j | 0 <= j < i
      ensures s.reqs[j].reports == 1
    {
      assert ReqOk(s.m, s.reqs[j]) && PendingIn(s.m)(s.reqs[j]) == 0;
    }
    TotalUniform(s.reqs[..i], Reported, 1);
    TotalPrefix(s.reqs, i, Reported);
  }

  /** The scheduler's progress: with work pending and every disk idle, the window offers something. */
  lemma WindowOffers(s: Sim)
    requires Inv(s) && !SomeBusy(s) && s.count != s.work
    ensures exists d :: 0 <= d < DISK_COUNT && !NoOffers(s, d, |s.reqs|)
  {
    var i := FirstUnfinished(s);
    var r := s.reqs[i];
    assert Attended(s, i, true) && Attended(s, i, false);
    OfferComplete(s.m, r);
    var d := if Offer(s.m, r, r.disk0).Some? then r.disk0 else r.disk1;
    assert !NoOffers(s, d, |s.reqs|);
  }

  /** Stopping the clock changes nothing else, whatever the goal. */
  lemma StopOk(s: Sim)
    requires Inv(s)
    ensures Inv(s.(running := false)) && Measure(s.(running := false)) == Measure(s)
  {
    var t := s.(running := false);
    forall d | 0 <= d < DISK_COUNT
      ensures DiskOk(t, d)
    {
      assert DiskOk(s, d);
    }
    forall i, e | 0 <= i < |t.reqs|
      ensures Attended(t, i, e)
    {
      assert Attended(s, i, e);
    }
  }

  lemma AllIdle(s: Sim)
    requires |s.disks| == DISK_COUNT
    ensures !SomeBusy(s) <==> forall d :: 0 <= d < DISK_COUNT ==> s.disks[d].state.Idle?
  {
  }

  /** If scheduling leaves every disk idle, all were idle before and none was offered anything. */
  lemma NobodyServed(s: Sim, n: nat)
    requires |s.disks| == DISK_COUNT == n && !SomeBusy(ScheduleDisks(s, n))
    ensures !SomeBusy(s) && forall d :: 0 <= d < n ==> NoOffers(s, d, |s.reqs|)
  {
    AllIdle(ScheduleDisks(s, n));
    IdleAfterDisks(s, n);
  }

  /** With work pending, scheduling leaves some disk busy. */
  lemma SchedulingFindsWork(s: Sim)
    requires Inv(s) && s.count != s.work
    ensures SomeBusy(ScheduleDisks(s, DISK_COUNT))
  {
    if !SomeBusy(ScheduleDisks(s, DISK_COUNT)) {
      NobodyServed(s, DISK_COUNT);
      WindowOffers(s);
    }
  }

  /** After GetNextIOs either the goal is reached or, if the goal is right, some disk has work. */
  lemma GetNextIOsOk(s: Sim)
    requires Inv(s)
    ensures var t := GetNextIOs(s);
            && Inv(t) && Measure(t) <= Measure(s)
            && t == s.(disks := t.disks, reqs := t.reqs, running := t.running)
            && BusyKept(s, t) && Later(s, t)
            && (s.running && s.needed == s.work ==> Live(t))
  {
    if s.count == s.needed {
      StopOk(s);
      LaterReflexive(s);
    } else {
      ScheduleDisksOk(s, DISK_COUNT);
      if s.needed == s.work {
        SchedulingFindsWork(s);
      }
    }
  }
}
