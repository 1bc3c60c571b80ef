/** One tick of the clock, and whole runs of the simulator. */
module SimTicks {
  import opened Arithmetic
  import opened Sums
  import opened SimRequest
  import opened SimState
  import opened SimProofs

  // ---------- a disk moves or transfers ----------

  ghost function WithDisk(s: Sim, d: int, k: Disk): Sim
    requires |s.disks| == DISK_COUNT && 0 <= d < DISK_COUNT
  {
    s.(disks := s.disks[d := k])
  }

  /** A busy disk that only moves on with its I/O keeps the invariant. */
  lemma DiskMovesOn(s: Sim, d: int, k: Disk)
    requires Inv(s) && 0 <= d < DISK_COUNT && !s.disks[d].state.Idle? && !k.state.Idle?
    requires k.target == s.disks[d].target && k.op == s.disks[d].op
    requires k.readCount == s.disks[d].readCount && k.writeCount == s.disks[d].writeCount
    requires Shape(WithDisk(s, d, k)) && DiskOk(WithDisk(s, d, k), d)
    ensures Inv(WithDisk(s, d, k))
    ensures Measure(WithDisk(s, d, k)) == Measure(s) - Effort(s, d) + Effort(WithDisk(s, d, k), d)
  {
    var t := WithDisk(s, d, k);
    forall e | 0 <= e < DISK_COUNT && e != d
      ensures DiskOk(t, e) && Effort(t, e) == Effort(s, e)
    {
      assert DiskOk(s, e);
    }
    forall i, e | 0 <= i < |t.reqs|
      ensures Attended(t, i, e)
    {
      assert Attended(s, i, e);
    }
  }

  /** A seeking head stays on its lattice; it stops, or nears a row that it can hit. */
  lemma HeadStep(s: Sim, d: int)
    requires Inv(s) && 0 <= d < DISK_COUNT && s.disks[d].state.Seek?
    ensures DiskOk(SeekPart(s, d), d)
    ensures RowOk(s.speed, s.reqs[s.disks[d].target].offset) ==>
              Effort(SeekPart(s, d), d) + (if SeekPart(s, d).disks[d].state.Seek? then 1 else 0) <= Effort(s, d)
  {
    var k := s.disks[d];
    var offset := s.reqs[k.target].offset;
    assert DiskOk(s, d) && ReqOk(s.m, s.reqs[k.target]);
    if k.y != YPos(offset) {
      ModShift(k.y - 100, if k.delta == s.speed then 1 else -1, s.speed);
      if RowOk(s.speed, offset) {
        HeadMove(s.speed, k.y, offset, k.delta);
      }
    }
  }

  lemma SeekPartOk(s: Sim, d: int)
    requires Inv(s) && 0 <= d < DISK_COUNT
    ensures var t := SeekPart(s, d);
            && Inv(t) && t.disks[d].state.Idle? == s.disks[d].state.Idle?
            && (if s.disks[d].state.Idle? then t == s
                else RowOk(s.speed, s.reqs[s.disks[d].target].offset) ==>
                  Measure(t) <= Measure(s) && (t.disks[d].state.Seek? ==> Measure(t) < Measure(s)))
  {
    var k := s.disks[d];
    assert DiskOk(s, d);
    if k.state.Seek? {
      var offset := s.reqs[k.target].offset;
      assert ReqOk(s.m, s.reqs[k.target]);
      HeadStep(s, d);
      DiskMovesOn(s, d, SeekPart(s, d).disks[d]);
    }
  }

  lemma CountDownOk(s: Sim, d: int)
    requires Inv(s) && 0 <= d < DISK_COUNT && s.disks[d].state.Xfer? && s.disks[d].xfer > 1
    ensures Inv(CountDown(s, d)) && Measure(CountDown(s, d)) == Measure(s) - 1
  {
    assert DiskOk(s, d);
    DiskMovesOn(s, d, CountDown(s, d).disks[d]);
  }

  // ---------- an I/O finishes ----------

  ghost predicate Finishing(s: Sim, d: int) {
    Inv(s) && 0 <= d < DISK_COUNT && s.disks[d].state.Xfer? && s.disks[d].xfer == 1
  }

  ghost function FinishedSim(s: Sim, d: int): Sim
    requires Finishing(s, d)
  {
    assert DiskOk(s, d);
    FinishIO(CountDown(s, d), d)
  }

  /** The finished I/O was the one in flight for this disk's entry of its request. */
  lemma FinishRequest(s: Sim, d: int)
    requires Finishing(s, d)
    ensures s.disks[d].op.Some?
    ensures var k := s.disks[d];
            var r := s.reqs[k.target];
            && ReqOk(s.m, r) && r.On(d) && Active(s.m, r, r.IsFirst(d))
            && (s.m.Mirrored? ==> InFlight(r.Get(r.IsFirst(d))))
            && var (r', done) := Complete(s.m, r, d, k.op.value);
               && OneFinished(s.m, r, r', d, done)
               && FinishedSim(s, d).reqs == s.reqs[k.target := r']
               && FinishedSim(s, d).logical == s.logical + Flag(done)
  {
    assert DiskOk(s, d);
    CompleteOk(s.m, s.reqs[s.disks[d].target], d, s.disks[d].op.value);
  }

  /** The disk becomes idle on the row of its request, which is therefore one its head can stop on. */
  lemma FinishIdles(s: Sim, d: int)
    requires Finishing(s, d)
    ensures var t := FinishedSim(s, d);
            Shape(t) && DiskOk(t, d) && Effort(t, d) == 0 && RowOk(s.speed, s.reqs[s.disks[d].target].offset)
  {
    FinishRequest(s, d);
    assert DiskOk(s, d);
  }

  lemma FinishKeepsDisk(s: Sim, d: int, e: int)
    requires Finishing(s, d) && 0 <= e < DISK_COUNT && e != d
    ensures Shape(FinishedSim(s, d)) && DiskOk(FinishedSim(s, d), e)
    ensures Effort(FinishedSim(s, d), e) == Effort(s, e)
  {
    FinishRequest(s, d);
    assert DiskOk(s, e) && DiskOk(s, d);
  }

  lemma FinishKeepsAttended(s: Sim, d: int)
    requires Finishing(s, d)
    ensures ReqsOk(FinishedSim(s, d))
    ensures forall i, e :: 0 <= i < |s.reqs| ==> Attended(FinishedSim(s, d), i, e)
  {
    var t := FinishedSim(s, d);
    FinishRequest(s, d);
    forall i, e | 0 <= i < |s.reqs|
      ensures Attended(t, i, e)
    {
      assert Attended(s, i, e);
    }
  }

  lemma FinishIsLater(s: Sim, d: int)
    requires Finishing(s, d)
    ensures Later(s, FinishedSim(s, d))
  {
    FinishRequest(s, d);
    FinishIdles(s, d);
  }

  /** The sums over the requests after one of them has finished an I/O. */
  lemma FinishTotals(s: Sim, d: int)
    requires Finishing(s, d)
    ensures var t := FinishedSim(s, d);
            && Total(t.reqs, LeftIn(s.m)) == Total(s.reqs, LeftIn(s.m))
            && Total(t.reqs, PendingIn(s.m)) == Total(s.reqs, PendingIn(s.m)) - 1
            && Total(t.reqs, Reported) == Total(s.reqs, Reported) + (t.logical - s.logical)
  {
    FinishRequest(s, d);
    var i := s.disks[d].target;
    var r' := FinishedSim(s, d).reqs[i];
    TotalUpdate(s.reqs, i, r', PendingIn(s.m));
    TotalUpdate(s.reqs, i, r', LeftIn(s.m));
    TotalUpdate(s.reqs, i, r', Reported);
  }

  /** One more I/O on the disk and in request_count. */
  lemma FinishCountsOne(s: Sim, d: int)
    requires Finishing(s, d)
    ensures var t := FinishedSim(s, d);
            && |t.disks| == DISK_COUNT && DiskIOs(t) == DiskIOs(s) + 1 && t.count == s.count + 1
            && t.m == s.m && t.work == s.work
            && (t.window == -1 || t.window > t.logical)
  {
    FinishRequest(s, d);
  }

  lemma FinishKeepsCounts(s: Sim, d: int)
    requires Finishing(s, d)
    ensures CountsOk(FinishedSim(s, d))
  {
    FinishCountsOne(s, d);
    FinishTotals(s, d);
  }

  lemma FinishOk(s: Sim, d: int)
    requires Finishing(s, d)
    ensures Inv(FinishedSim(s, d)) && Measure(FinishedSim(s, d)) < Measure(s)
    ensures FinishedSim(s, d).running == s.running
    ensures FinishedSim(s, d).needed == s.needed && FinishedSim(s, d).work == s.work
  {
    FinishIdles(s, d);
    forall e | 0 <= e < DISK_COUNT && e != d {
      FinishKeepsDisk(s, d, e);
    }
    FinishKeepsAttended(s, d);
    FinishKeepsCounts(s, d);
    FinishTotals(s, d);
  }

  // ---------- one disk's part of a tick ----------

  /** A busy disk means the goal is not reached yet. */
  lemma BusyRuns(s: Sim, d: int)
    requires Inv(s) && Live(s) && 0 <= d < DISK_COUNT && !s.disks[d].state.Idle?
    ensures s.running
  {
    assert DiskOk(s, d);
    TotalAtLeast(s.reqs, s.disks[d].target, PendingIn(s.m));
  }

  /** An idle disk does nothing; a busy one uses up some of the measure if heads can stop on every row. */
  lemma TickDiskOk(s: Sim, d: int)
    requires Ready(s, d)
    ensures var t := TickDisk(s, d);
            && Inv(t) && t.needed == s.needed && t.work == s.work
            && (if s.disks[d].state.Idle? then t == s else RowsOk(s) ==> Measure(t) < Measure(s))
            && (Live(s) ==> Live(t))
  {
    SeekPartOk(s, d);
    var t := SeekPart(s, d);
    if Live(s) && !s.disks[d].state.Idle? {
      BusyRuns(s, d);
    }
    if t.disks[d].state.Xfer? {
      assert DiskOk(t, d);
      if t.disks[d].xfer > 1 {
        CountDownOk(t, d);
      } else {
        FinishOk(t, d);
        GetNextIOsOk(FinishedSim(t, d));
      }
    }
  }

  /** The disk's transfer ends in this tick. */
  ghost predicate EndsNow(s: Sim, d: int)
    requires Ready(s, d)
  {
    SeekPart(s, d).disks[d].state.Xfer? && SeekPart(s, d).disks[d].xfer == 1
  }

  lemma TickOnly(s: Sim, d: int)
    requires Ready(s, d) && !EndsNow(s, d)
    ensures |TickDisk(s, d).disks| == DISK_COUNT && TickDisk(s, d) == WithDisk(s, d, TickDisk(s, d).disks[d])
  {
    SeekPartOk(s, d);
    assert DiskOk(SeekPart(s, d), d);
  }

  lemma TickEnds(s: Sim, d: int)
    requires Ready(s, d) && EndsNow(s, d)
    ensures var t := SeekPart(s, d);
            Finishing(t, d) && t == WithDisk(s, d, t.disks[d]) && TickDisk(s, d) == GetNextIOs(FinishedSim(t, d))
  {
    SeekPartOk(s, d);
  }

  /** One disk's tick leaves the other busy disks alone, and each request is a later state of itself. */
  lemma TickDiskIsLater(s: Sim, d: int)
    requires Ready(s, d)
    ensures var t := TickDisk(s, d);
            && Later(s, t) && |t.disks| == DISK_COUNT
            && forall e :: 0 <= e < DISK_COUNT && e != d && !s.disks[e].state.Idle? ==> t.disks[e] == s.disks[e]
  {
    if EndsNow(s, d) {
      TickEnds(s, d);
      FinishTickIsLater(SeekPart(s, d), d);
      LaterTransitive(s, SeekPart(s, d), TickDisk(s, d));
    } else {
      TickOnly(s, d);
    }
  }

  lemma FinishTickIsLater(s: Sim, d: int)
    requires Finishing(s, d)
    ensures var t := GetNextIOs(FinishedSim(s, d));
            && Later(s, t) && |t.disks| == DISK_COUNT
            && forall e :: 0 <= e < DISK_COUNT && e != d && !s.disks[e].state.Idle? ==> t.disks[e] == s.disks[e]
  {
    var u := FinishedSim(s, d);
    FinishOk(s, d);
    FinishIsLater(s, d);
    GetNextIOsOk(u);
    LaterTransitive(s, u, GetNextIOs(u));
  }

  // ---------- Animate ----------

  /** The disk loop of Animate, from disk d on. */
  ghost function AnimateFrom(s: Sim, d: nat): (t: Sim)
    requires Inv(s) && d <= DISK_COUNT
    ensures Inv(t)
    decreases DISK_COUNT - d, s.needed // naming s keeps the verifier from unrolling calls with a fixed d
  {
    if d == DISK_COUNT then s
    else
      TickDiskOk(s, d);
      AnimateFrom(TickDisk(s, d), d + 1)
  }

  ghost function Animate(s: Sim): (t: Sim)
    requires Inv(s)
    ensures Inv(t)
  {
    if s.running then AnimateFrom(s, 0) else s
  }

  /** Some disk from d on is busy. */
  ghost predicate BusyFrom(s: Sim, d: nat)
    requires |s.disks| == DISK_COUNT && d <= DISK_COUNT
    decreases DISK_COUNT - d
  {
    d < DISK_COUNT && (!s.disks[d].state.Idle? || BusyFrom(s, d + 1))
  }

  lemma {:induction false} AnimateFromOk(s: Sim, d: nat)
    requires Inv(s) && d <= DISK_COUNT
    ensures var t := AnimateFrom(s, d);
            && Inv(t) && t.needed == s.needed && t.work == s.work
            && (RowsOk(s) ==> Measure(t) <= Measure(s) && (BusyFrom(s, d) ==> Measure(t) < Measure(s)))
            && (Live(s) ==> Live(t))
    decreases DISK_COUNT - d
  {
    if d < DISK_COUNT {
      TickDiskOk(s, d);
      TickDiskIsLater(s, d);
      LaterTransitive(s, s, TickDisk(s, d));
      AnimateFromOk(TickDisk(s, d), d + 1);
    }
  }

  /** What one disk's part of a tick keeps, whole ticks keep. */
  ghost predicate KeptByTicks(P: Sim -> bool) {
    forall s, d :: Ready(s, d) && P(s) ==> P(TickDisk(s, d))
  }

  lemma {:induction false} AnimateFromKeeps(P: Sim -> bool, s: Sim, d: nat)
    requires Inv(s) && d <= DISK_COUNT && P(s) && KeptByTicks(P)
    ensures P(AnimateFrom(s, d))
    decreases DISK_COUNT - d
  {
    if d < DISK_COUNT {
      TickDiskOk(s, d);
      assert Ready(s, d);
      AnimateFromKeeps(P, TickDisk(s, d), d + 1);
    }
  }

  ghost function LaterThan(s: Sim): Sim -> bool { (t: Sim) => Later(s, t) }

  lemma LaterKept(s: Sim)
    ensures KeptByTicks(LaterThan(s))
  {
    forall t, d | Ready(t, d) && Later(s, t)
      ensures Later(s, TickDisk(t, d))
    {
      TickDiskIsLater(t, d);
      LaterTransitive(s, t, TickDisk(t, d));
    }
  }

  /**
   Every tick keeps the invariant; a tick of a live, running simulation strictly decreases the measure if
   heads can stop on every row.
   */
  lemma TickOk(s: Sim)
    requires Inv(s)
    ensures var t := Animate(s);
            && Inv(t) && t.needed == s.needed && t.work == s.work
            && (Live(s) ==> Live(t) && if s.running then RowsOk(s) ==> Measure(t) < Measure(s) else t == s)
  {
    if s.running {
      AnimateFromOk(s, 0);
      assert BusyFrom(s, 4) <==> false;
      assert BusyFrom(s, 2) <==> !s.disks[2].state.Idle? || !s.disks[3].state.Idle?;
    }
  }

  lemma TickKeeps(s: Sim)
    requires Inv(s)
    ensures Animate(s).needed == s.needed && Animate(s).work == s.work && Later(s, Animate(s))
  {
    TickOk(s);
    LaterReflexive(s);
    LaterKept(s);
    if s.running {
      AnimateFromKeeps(LaterThan(s), s, 0);
    }
  }

  ghost function Ticks(s: Sim, n: nat): (t: Sim)
    requires Inv(s)
    ensures Inv(t)
    decreases n
  {
    if n == 0 then s else Ticks(Animate(s), n - 1)
  }

  lemma {:induction false} TicksKeep(s: Sim, n: nat)
    requires Inv(s)
    ensures Ticks(s, n).needed == s.needed && Ticks(s, n).work == s.work
    decreases n
  {
    if n > 0 {
      TickKeeps(s);
      TicksKeep(Animate(s), n - 1);
    }
  }

  lemma {:induction false} TicksKeepAll(P: Sim -> bool, s: Sim, n: nat)
    requires Inv(s) && P(s) && KeptByTicks(P)
    ensures P(Ticks(s, n))
    decreases n
  {
    if n > 0 {
      if s.running {
        AnimateFromKeeps(P, s, 0);
      }
      TicksKeepAll(P, Animate(s), n - 1);
    }
  }

  lemma TicksAreLater(s: Sim, n: nat)
    requires Inv(s)
    ensures Later(s, Ticks(s, n))
  {
    LaterReflexive(s);
    LaterKept(s);
    TicksKeepAll(LaterThan(s), s, n);
  }

  lemma {:induction false} TicksOk(s: Sim, n: nat)
    requires Inv(s) && Live(s)
    ensures Live(Ticks(s, n))
    ensures RowsOk(s) && Ticks(s, n).running ==> Measure(Ticks(s, n)) <= Measure(s) - n
    decreases n
  {
    if n > 0 {
      var t := Animate(s);
      TickOk(s);
      TickKeeps(s);
      LaterTransitive(s, s, t);
      TicksOk(t, n - 1);
      if !t.running {
        StaysStopped(t, n - 1);
      }
    }
  }

  ghost function Iterate(f: Sim -> Sim, s: Sim, n: nat): Sim
    decreases n
  {
    if n == 0 then s else Iterate(f, f(s), n - 1)
  }

  lemma {:induction false} OneMoreStep(f: Sim -> Sim, s: Sim, n: nat)
    ensures Iterate(f, s, n + 1) == f(Iterate(f, s, n))
    decreases n
  {
    if n > 0 {
      OneMoreStep(f, f(s), n - 1);
    }
  }

  ghost predicate Animates(f: Sim -> Sim) { forall s {:trigger f(s)} :: Inv(s) ==> f(s) == Animate(s) }

  lemma {:induction false} TicksIterate(f: Sim -> Sim, s: Sim, n: nat)
    requires Inv(s) && Animates(f)
    ensures Ticks(s, n) == Iterate(f, s, n)
    decreases n
  {
    if n > 0 {
      assert f(s) == Animate(s);
      TicksIterate(f, Animate(s), n - 1);
    }
  }

  lemma OneMoreTick(s: Sim, n: nat)
    requires Inv(s)
    ensures Ticks(s, n + 1) == Animate(Ticks(s, n))
  {
    var f := (t: Sim) => if Inv(t) then Animate(t) else t;
    TicksIterate(f, s, n);
    TicksIterate(f, s, n + 1);
    OneMoreStep(f, s, n);
    assert f(Ticks(s, n)) == Animate(Ticks(s, n));
  }

  lemma {:induction false} IterateAdd(f: Sim -> Sim, s: Sim, n: nat, k: nat)
    ensures Iterate(f, s, n + k) == Iterate(f, Iterate(f, s, n), k)
    decreases n
  {
    if n > 0 {
      IterateAdd(f, f(s), n - 1, k);
    }
  }

  lemma TicksAdd(s: Sim, n: nat, k: nat)
    requires Inv(s)
    ensures Ticks(s, n + k) == Ticks(Ticks(s, n), k)
  {
    var f := (t: Sim) => if Inv(t) then Animate(t) else t;
    TicksIterate(f, s, n);
    TicksIterate(f, s, n + k);
    TicksIterate(f, Ticks(s, n), k);
    IterateAdd(f, s, n, k);
  }

  lemma {:induction false} StaysStopped(s: Sim, n: nat)
    requires Inv(s) && !s.running
    ensures Ticks(s, n) == s
    decreases n
  {
    if n > 0 {
      StaysStopped(s, n - 1);
    }
  }

  // ---------- what has happened when a request is reported, and at the end ----------

  /** The I/Os the program counts for a request are over. */
  ghost predicate IOsOver(m: Mapping, r: Req) {
    match KindOf(m, r)
    case Single => r.history == Ended(r.disk0, r.op)
    case OneOfTwo => r.history == Ended(r.disk0, r.op) || r.history == Ended(r.disk1, r.op)
    case DataWrite => r.history == Ended(r.disk0, OpWrite) || r.history == Ended(r.disk1, OpWrite)
    case BothWrite => Lanes(r.history, r.disk0, Ended(r.disk0, OpWrite), r.disk1, Ended(r.disk1, OpWrite))
    case ParityRead => r.history == Ended(r.disk0, OpRead)
    case ParityWrite =>
      && Lanes(r.history, r.disk0, ParityScript(Done, r.disk0), r.disk1, ParityScript(Done, r.disk1))
      && r.history.Barrier(r.disk0, r.disk1)
  }

  /** The I/Os of a finished request: as counted, and a full-stripe data write has written its data disk. */
  ghost predicate AllIOsDone(m: Mapping, r: Req) {
    IOsOver(m, r) && (KindOf(m, r).DataWrite? ==> r.history == Ended(r.disk0, OpWrite))
  }

  /**
   A request is reported done at most once, and exactly when the I/Os counted for it are over: a mirrored
   write has written both disks once; a parity write has read both and then written both, no write having
   begun before both reads ended; any other request has done its one I/O. A full-stripe data write has then
   written its data disk exactly if no write of it ever began on the parity disk.
   */
  lemma ReportedExactlyWhenDone(m: Mapping, r: Req)
    requires ReqOk(m, r)
    ensures r.reports <= 1
    ensures r.reports == 1 <==> IOsOver(m, r)
    ensures AllIOsDone(m, r) <==> r.reports == 1 && !(KindOf(m, r).DataWrite? && OffHome(r))
  {
    if KindOf(m, r).ParityWrite? && r.reports == 0 {
      PartialLaneDiffers(r);
    }
    EndedBegan(r.disk0, OpWrite, r.disk1);
    EndedBegan(r.disk1, OpWrite, r.disk1);
  }

  /** One finished I/O has begun on its own disk only. */
  lemma EndedBegan(disk: int, op: Op, other: int)
    ensures Ended(disk, op).Has(Begin(other, op)) <==> disk == other
  {
    assert !Empty.Has(Begin(other, op));
    assert Began(disk, op).Has(Begin(other, op)) <==> disk == other;
  }

  /** A parity write with an entry not yet Done has a shorter lane there. */
  lemma PartialLaneDiffers(r: Req)
    requires ReadThenWritten(r) && (r.first != Done || r.second != Done)
    ensures r.first != Done ==> ParityScript(r.first, r.disk0) != ParityScript(Done, r.disk0)
    ensures r.second != Done ==> ParityScript(r.second, r.disk1) != ParityScript(Done, r.disk1)
  {
    assert ParityScript(Done, r.disk0).last.End? && ParityScript(Done, r.disk1).last.End?;
  }

  ghost predicate EachReported(s: Sim) {
    forall i :: 0 <= i < |s.reqs| ==> s.reqs[i].reports == 1
  }

  /** The goal is reached and every request has been reported once, its counted I/Os over. */
  ghost predicate Finished(s: Sim) {
    && |s.disks| == DISK_COUNT && !s.running && s.count == s.needed == DiskIOs(s)
    && s.logical == |s.reqs| && EachReported(s)
    && forall i :: 0 <= i < |s.reqs| ==> IOsOver(s.m, s.reqs[i])
  }

  /** Finished, and every write has reached its data disk. */
  ghost predicate Completed(s: Sim) {
    Finished(s) && forall i :: 0 <= i < |s.reqs| ==> AllIOsDone(s.m, s.reqs[i])
  }

  /** request_count has reached the number of I/Os really needed exactly when every request has been reported. */
  lemma CountWhenReported(s: Sim)
    requires Inv(s)
    ensures s.count == s.work <==> EachReported(s)
  {
    if EachReported(s) {
      forall i: nat | i < |s.reqs|
        ensures PendingIn(s.m)(s.reqs[i]) == 0
      {
        assert ReqOk(s.m, s.reqs[i]);
      }
      TotalUniform(s.reqs, PendingIn(s.m), 0);
    }
    if s.count == s.work {
      forall i: nat | i < |s.reqs|
        ensures s.reqs[i].reports == 1
      {
        TotalAtLeast(s.reqs, i, PendingIn(s.m));
        assert ReqOk(s.m, s.reqs[i]) && PendingIn(s.m)(s.reqs[i]) == 0;
      }
    }
  }

  lemma StoppedIsFinished(s: Sim)
    requires Inv(s) && Live(s) && !s.running
    ensures Finished(s)
  {
    CountWhenReported(s);
    forall i: nat | i < |s.reqs|
      ensures IOsOver(s.m, s.reqs[i])
    {
      assert ReqOk(s.m, s.reqs[i]);
      ReportedExactlyWhenDone(s.m, s.reqs[i]);
    }
    TotalUniform(s.reqs, Reported, 1);
  }

  lemma BusyMeasure(s: Sim)
    requires Inv(s) && SomeBusy(s)
    ensures Measure(s) > 0
  {
    assert DiskOk(s, 0) && DiskOk(s, 1) && DiskOk(s, 2) && DiskOk(s, 3);
  }

  /** The simulation ends: within Measure(s) ticks the clock stops with every request reported. */
  lemma RunsToCompletion(s: Sim)
    requires Inv(s) && Live(s) && RowsOk(s)
    ensures Measure(s) >= 0 && Finished(Ticks(s, Measure(s)))
  {
    MeasureNonNegative(s);
    var t := Ticks(s, Measure(s));
    TicksOk(s, Measure(s));
    MeasureNonNegative(t);
    if t.running {
      BusyMeasure(t);
    }
    StoppedIsFinished(t);
  }
}
