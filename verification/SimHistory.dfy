/** What the disks' own records say of a run: the requests served, where heads rest, the counters and the window. */
module SimHistory {
  import opened Sums
  import opened SimRequest
  import opened SimState
  import opened SimProofs
  import opened SimTicks

  // ---------- lifting a property of the state to scheduling and to ticks ----------

  /** What starting an I/O on an idle disk keeps, scheduling keeps. */
  ghost predicate KeptByStarts(P: Sim -> bool) {
    forall s, disk, index :: Starts(s, disk, index) && P(s) ==> P(StartedSim(s, disk, index))
  }

  /** P, in states of the invariant with a queue and disks. */
  ghost function InInv(P: Sim -> bool): Sim -> bool { (s: Sim) => Inv(s) && P(s) }

  lemma StartsKeepTries(P: Sim -> bool, disk: int)
    requires KeptByStarts(P)
    ensures KeptByTries(InInv(P), disk)
  {
    forall t, index | TryApplies(t, disk, index) && InInv(P)(t)
      ensures InInv(P)(TryStart(t, disk, index))
    {
      TryStartOk(t, disk, index);
      if (t.window == -1 || index < t.window) && t.disks[disk].state.Idle? && Offer(t.m, t.reqs[index], disk).Some? {
        assert Starts(t, disk, index);
      }
    }
  }

  lemma SchedulingKeeps(P: Sim -> bool, s: Sim)
    requires Inv(s) && P(s) && KeptByStarts(P) && (P(s) ==> P(s.(running := false)))
    ensures P(GetNextIOs(s))
  {
    if s.count != s.needed {
      forall d | 0 <= d < DISK_COUNT {
        StartsKeepTries(P, d);
      }
      ScheduleDisksKeep(InInv(P), s, DISK_COUNT);
    }
  }

  /** What moving and counting down, finishing an I/O, starting one and stopping the clock all keep. */
  ghost predicate KeptByParts(P: Sim -> bool) {
    && KeptByStarts(P)
    && (forall s :: Inv(s) && P(s) ==> P(s.(running := false)))
    && (forall s, d :: Ready(s, d) && !EndsNow(s, d) && P(s) ==> P(TickDisk(s, d)))
    && (forall s, d :: Ready(s, d) && EndsNow(s, d) && P(s) ==> P(EndedSim(s, d)))
  }

  /** The state in which the disk's I/O has just ended, before the scheduler runs. */
  ghost function EndedSim(s: Sim, d: int): Sim
    requires Ready(s, d) && EndsNow(s, d)
  {
    TickEnds(s, d);
    FinishedSim(SeekPart(s, d), d)
  }

  lemma PartsKeepTicks(P: Sim -> bool)
    requires KeptByParts(P)
    ensures KeptByTicks(P)
  {
    forall s, d | Ready(s, d) && P(s)
      ensures P(TickDisk(s, d))
    {
      if EndsNow(s, d) {
        TickEnds(s, d);
        FinishOk(SeekPart(s, d), d);
        assert P(EndedSim(s, d));
        SchedulingKeeps(P, EndedSim(s, d));
      }
    }
  }

  // ---------- what the parts of a tick do to the disk ----------

  /** A disk that has moved, arrived or counted down, and nothing more. */
  ghost predicate OnlyMoved(k: Disk, k': Disk) {
    k' == k.(state := k'.state, y := k'.y, xfer := k'.xfer) && k'.state.Idle? == k.state.Idle?
  }

  lemma MoveOnly(s: Sim, d: int)
    requires Ready(s, d) && !EndsNow(s, d)
    ensures var t := TickDisk(s, d);
            && |t.disks| == DISK_COUNT && t == WithDisk(s, d, t.disks[d]) && OnlyMoved(s.disks[d], t.disks[d])
  {
    TickOnly(s, d);
    SeekPartOk(s, d);
  }

  /** A disk whose I/O has ended: it is idle where it stood, and the I/O is counted. */
  ghost predicate JustEnded(k: Disk, k': Disk) {
    && k.op.Some? && k'.state.Idle? && !k.state.Idle?
    && k' == k.(state := Idle, xfer := k'.xfer, readCount := k.readCount + Flag(k.op.value == OpRead),
                writeCount := k.writeCount + Flag(k.op.value == OpWrite))
  }

  lemma SeekPartOnly(s: Sim, d: int)
    requires Ready(s, d)
    ensures var t := SeekPart(s, d);
            && |t.disks| == DISK_COUNT && t == WithDisk(s, d, t.disks[d]) && OnlyMoved(s.disks[d], t.disks[d])
            && (t.disks[d].state.Xfer? ==> t.disks[d].y == s.disks[d].y)
  {
  }

  lemma FinishEnds(s: Sim, d: int)
    requires Finishing(s, d)
    ensures var t := FinishedSim(s, d);
            && |t.disks| == DISK_COUNT && JustEnded(s.disks[d], t.disks[d])
            && t == s.(disks := s.disks[d := t.disks[d]], reqs := t.reqs, logical := t.logical, window := t.window,
                       count := t.count)
            && |t.reqs| == |s.reqs|
  {
    FinishRequest(s, d);
  }

  lemma EndOnly(s: Sim, d: int)
    requires Ready(s, d) && EndsNow(s, d)
    ensures var t := EndedSim(s, d);
            && Inv(t) && |t.disks| == DISK_COUNT && JustEnded(s.disks[d], t.disks[d])
            && t == s.(disks := s.disks[d := t.disks[d]], reqs := t.reqs, logical := t.logical, window := t.window,
                       count := t.count)
            && |t.reqs| == |s.reqs|
  {
    TickEnds(s, d);
    FinishOk(SeekPart(s, d), d);
    FinishEnds(SeekPart(s, d), d);
    SeekPartOnly(s, d);
  }

  // ---------- the requests a disk has served ----------

  /** The disk's targets and counters agree with the requests it has served. */
  ghost predicate Remembers(k: Disk, queue: nat) {
    && (forall i :: 0 <= i < |k.served| ==> 0 <= k.served[i] < queue)
    && k.target == (if k.served == [] then NO_TARGET else k.served[|k.served| - 1])
    && k.last == (if |k.served| < 2 then NO_TARGET else k.served[|k.served| - 2])
    && k.readCount + k.writeCount + (if k.state.Idle? then 0 else 1) == |k.served|
  }

  ghost predicate AllRemember(s: Sim) {
    |s.disks| == DISK_COUNT && forall d :: 0 <= d < DISK_COUNT ==> Remembers(s.disks[d], |s.reqs|)
  }

  lemma StartRemembers(s: Sim, disk: int, index: int)
    requires Starts(s, disk, index) && AllRemember(s)
    ensures AllRemember(StartedSim(s, disk, index))
  {
  }

  lemma MovingRemembers(s: Sim, d: int)
    requires Ready(s, d) && !EndsNow(s, d) && AllRemember(s)
    ensures AllRemember(TickDisk(s, d))
  {
    MoveOnly(s, d);
  }

  lemma EndingRemembers(s: Sim, d: int)
    requires Ready(s, d) && EndsNow(s, d) && AllRemember(s)
    ensures AllRemember(EndedSim(s, d))
  {
    EndOnly(s, d);
  }

  lemma StopRemember(s: Sim)
    requires AllRemember(s)
    ensures AllRemember(s.(running := false))
  {
    var t := s.(running := false);
    forall d | 0 <= d < DISK_COUNT
      ensures Remembers(t.disks[d], |t.reqs|)
    {
      assert Remembers(s.disks[d], |s.reqs|);
    }
  }

  lemma RememberKept()
    ensures KeptByParts(AllRemember)
  {
    forall s, disk, index | Starts(s, disk, index) && AllRemember(s) {
      StartRemembers(s, disk, index);
    }
    forall s | Inv(s) && AllRemember(s) {
      StopRemember(s);
    }
    forall s, d | Ready(s, d) && !EndsNow(s, d) && AllRemember(s) {
      MovingRemembers(s, d);
    }
    forall s, d | Ready(s, d) && EndsNow(s, d) && AllRemember(s) {
      EndingRemembers(s, d);
    }
  }

  lemma TicksRemember(s: Sim, n: nat)
    requires Inv(s) && AllRemember(s)
    ensures AllRemember(Ticks(s, n))
  {
    RememberKept();
    PartsKeepTicks(AllRemember);
    TicksKeepAll(AllRemember, s, n);
  }

  ghost function ServedFrom(past: seq<int>, d: int): Sim -> bool {
    (s: Sim) => |s.disks| == DISK_COUNT && 0 <= d < DISK_COUNT && past <= s.disks[d].served
  }

  lemma ServedKept(past: seq<int>, d: int)
    ensures KeptByParts(ServedFrom(past, d))
  {
    var P := ServedFrom(past, d);
    forall t, e | Ready(t, e) && !EndsNow(t, e) && P(t)
      ensures P(TickDisk(t, e))
    {
      MoveOnly(t, e);
    }
    forall t, e | Ready(t, e) && EndsNow(t, e) && P(t)
      ensures P(EndedSim(t, e))
    {
      EndOnly(t, e);
    }
  }

  /** What a disk has served stays served; more is added at the end. */
  lemma ServedGrows(s: Sim, d: int, n: nat)
    requires Inv(s) && 0 <= d < DISK_COUNT
    ensures s.disks[d].served <= Ticks(s, n).disks[d].served
  {
    ServedKept(s.disks[d].served, d);
    PartsKeepTicks(ServedFrom(s.disks[d].served, d));
    TicksKeepAll(ServedFrom(s.disks[d].served, d), s, n);
  }

  // ---------- where heads rest ----------

  /** An idle disk's head stands on the row of the request it served last, or on row 0. */
  ghost predicate Rests(s: Sim, d: int)
    requires AllRemember(s) && 0 <= d < DISK_COUNT
  {
    var k := s.disks[d];
    k.state.Idle? ==> k.y == YPos(if k.served == [] then 0 else s.reqs[k.served[|k.served| - 1]].offset)
  }

  ghost predicate AllRest(s: Sim) {
    AllRemember(s) && forall d :: 0 <= d < DISK_COUNT ==> Rests(s, d)
  }

  ghost predicate SameOffsets(s: Sim, t: Sim) {
    |t.reqs| == |s.reqs| && forall i :: 0 <= i < |s.reqs| ==> t.reqs[i].offset == s.reqs[i].offset
  }

  lemma StartRests(s: Sim, disk: int, index: int)
    requires Starts(s, disk, index) && AllRest(s)
    ensures AllRest(StartedSim(s, disk, index))
  {
    StartRemembers(s, disk, index);
    StartIsLater(s, disk, index);
    var t := StartedSim(s, disk, index);
    assert SameOffsets(s, t);
    forall d | 0 <= d < DISK_COUNT
      ensures Rests(t, d)
    {
      assert Rests(s, d);
    }
  }

  lemma MovingRests(s: Sim, d: int)
    requires Ready(s, d) && !EndsNow(s, d) && AllRest(s)
    ensures AllRest(TickDisk(s, d))
  {
    MoveOnly(s, d);
    MovingRemembers(s, d);
    var t := TickDisk(s, d);
    forall e | 0 <= e < DISK_COUNT
      ensures Rests(t, e)
    {
      assert Rests(s, e);
      if e == d && s.disks[d].state.Idle? {
        SeekPartOk(s, d);
      }
    }
  }

  /** A disk whose I/O ends stands on the row of its request. */
  lemma EndsOnRow(s: Sim, d: int)
    requires Ready(s, d) && EndsNow(s, d)
    ensures var t := EndedSim(s, d);
            && SameOffsets(s, t) && |t.disks| == DISK_COUNT && 0 <= s.disks[d].target < |s.reqs|
            && t.disks[d].y == YPos(s.reqs[s.disks[d].target].offset)
  {
    var u := SeekPart(s, d);
    TickEnds(s, d);
    SeekPartOnly(s, d);
    FinishIsLater(u, d);
    FinishEnds(u, d);
    assert DiskOk(u, d);
  }

  lemma EndingRests(s: Sim, d: int)
    requires Ready(s, d) && EndsNow(s, d) && AllRest(s)
    ensures AllRest(EndedSim(s, d))
  {
    EndOnly(s, d);
    EndingRemembers(s, d);
    EndsOnRow(s, d);
    var t := EndedSim(s, d);
    forall e | 0 <= e < DISK_COUNT
      ensures Rests(t, e)
    {
      assert Rests(s, e);
    }
  }

  lemma StopRest(s: Sim)
    requires AllRest(s)
    ensures AllRest(s.(running := false))
  {
    var t := s.(running := false);
    forall d | 0 <= d < DISK_COUNT
      ensures Rests(t, d)
    {
      assert Rests(s, d);
    }
  }

  lemma RestKept()
    ensures KeptByParts(AllRest)
  {
    forall s, disk, index | Starts(s, disk, index) && AllRest(s) {
      StartRests(s, disk, index);
    }
    forall s | Inv(s) && AllRest(s) {
      StopRest(s);
    }
    forall s, d | Ready(s, d) && !EndsNow(s, d) && AllRest(s) {
      MovingRests(s, d);
    }
    forall s, d | Ready(s, d) && EndsNow(s, d) && AllRest(s) {
      EndingRests(s, d);
    }
  }

  lemma TicksRest(s: Sim, n: nat)
    requires Inv(s) && AllRest(s)
    ensures AllRest(Ticks(s, n))
  {
    RestKept();
    PartsKeepTicks(AllRest);
    TicksKeepAll(AllRest, s, n);
  }

  // ---------- the counters ----------

  /** How often an I/O of this kind has ended on the disk for a request. */
  ghost function EndsOn(d: int, op: Op): Req -> nat { (r: Req) => r.history.Count(End(d, op)) }

  /** The disk's counters are the I/Os that have ended on it. */
  ghost predicate Counted(s: Sim, d: int)
    requires |s.disks| == DISK_COUNT && 0 <= d < DISK_COUNT
  {
    && s.disks[d].readCount == Total(s.reqs, EndsOn(d, OpRead))
    && s.disks[d].writeCount == Total(s.reqs, EndsOn(d, OpWrite))
  }

  ghost predicate AllCounted(s: Sim) {
    |s.disks| == DISK_COUNT && forall d :: 0 <= d < DISK_COUNT ==> Counted(s, d)
  }

  /** One event more in the history of one request. */
  lemma CountedUpdate(reqs: seq<Req>, i: nat, r': Req, e: Event, d: int, op: Op)
    requires i < |reqs| && r'.history == Snoc(reqs[i].history, e)
    ensures Total(reqs[i := r'], EndsOn(d, op)) == Total(reqs, EndsOn(d, op)) + Flag(e == End(d, op))
  {
    TotalUpdate(reqs, i, r', EndsOn(d, op));
  }

  lemma StartCounted(s: Sim, disk: int, index: int)
    requires Starts(s, disk, index) && AllCounted(s)
    ensures AllCounted(StartedSim(s, disk, index))
  {
    var t := StartedSim(s, disk, index);
    var (r', op) := Offer(s.m, s.reqs[index], disk).value;
    forall d | 0 <= d < DISK_COUNT
      ensures Counted(t, d)
    {
      assert Counted(s, d);
      CountedUpdate(s.reqs, index, r', Begin(disk, op), d, OpRead);
      CountedUpdate(s.reqs, index, r', Begin(disk, op), d, OpWrite);
    }
  }

  lemma MovingCounted(s: Sim, d: int)
    requires Ready(s, d) && !EndsNow(s, d) && AllCounted(s)
    ensures AllCounted(TickDisk(s, d))
  {
    MoveOnly(s, d);
    forall e | 0 <= e < DISK_COUNT
      ensures Counted(TickDisk(s, d), e)
    {
      assert Counted(s, e);
    }
  }

  lemma EndLogged(s: Sim, d: int)
    requires Ready(s, d) && EndsNow(s, d)
    ensures var i := s.disks[d].target;
            && s.disks[d].op.Some? && 0 <= i < |s.reqs| && |EndedSim(s, d).reqs| == |s.reqs|
            && var r' := EndedSim(s, d).reqs[i];
               && EndedSim(s, d).reqs == s.reqs[i := r']
               && r'.history == Snoc(s.reqs[i].history, End(d, s.disks[d].op.value))
  {
    TickEnds(s, d);
    SeekPartOnly(s, d);
    FinishRequest(SeekPart(s, d), d);
  }

  lemma EndingCounted(s: Sim, d: int)
    requires Ready(s, d) && EndsNow(s, d) && AllCounted(s)
    ensures AllCounted(EndedSim(s, d))
  {
    EndOnly(s, d);
    EndLogged(s, d);
    var t := EndedSim(s, d);
    var i, op := s.disks[d].target, s.disks[d].op.value;
    forall e | 0 <= e < DISK_COUNT
      ensures Counted(t, e)
    {
      assert Counted(s, e);
      CountedUpdate(s.reqs, i, t.reqs[i], End(d, op), e, OpRead);
      CountedUpdate(s.reqs, i, t.reqs[i], End(d, op), e, OpWrite);
    }
  }

  lemma StopCounted(s: Sim)
    requires AllCounted(s)
    ensures AllCounted(s.(running := false))
  {
    var t := s.(running := false);
    forall d | 0 <= d < DISK_COUNT
      ensures Counted(t, d)
    {
      assert Counted(s, d);
    }
  }

  lemma CountedKept()
    ensures KeptByParts(AllCounted)
  {
    forall s, disk, index | Starts(s, disk, index) && AllCounted(s) {
      StartCounted(s, disk, index);
    }
    forall s | Inv(s) && AllCounted(s) {
      StopCounted(s);
    }
    forall s, d | Ready(s, d) && !EndsNow(s, d) && AllCounted(s) {
      MovingCounted(s, d);
    }
    forall s, d | Ready(s, d) && EndsNow(s, d) && AllCounted(s) {
      EndingCounted(s, d);
    }
  }

  lemma TicksCounted(s: Sim, n: nat)
    requires Inv(s) && AllCounted(s)
    ensures AllCounted(Ticks(s, n))
  {
    CountedKept();
    PartsKeepTicks(AllCounted);
    TicksKeepAll(AllCounted, s, n);
  }

  // ---------- the window ----------

  ghost function WindowFrom(window: int): Sim -> bool {
    (s: Sim) => s.window == if window == -1 then -1 else window + s.logical
  }

  lemma FinishWindow(s: Sim, d: int)
    requires Finishing(s, d)
    ensures FinishedSim(s, d).window ==
            if s.window == -1 then -1 else s.window + (FinishedSim(s, d).logical - s.logical)
  {
    FinishRequest(s, d);
  }

  lemma EndingWindow(s: Sim, d: int, window: int)
    requires Ready(s, d) && EndsNow(s, d) && WindowFrom(window)(s) && (window == -1 || window > 0)
    ensures WindowFrom(window)(EndedSim(s, d))
  {
    TickEnds(s, d);
    FinishWindow(SeekPart(s, d), d);
  }

  lemma WindowKept(window: int)
    requires window == -1 || window > 0
    ensures KeptByParts(WindowFrom(window))
  {
    var P := WindowFrom(window);
    forall t, e | Ready(t, e) && !EndsNow(t, e) && P(t)
      ensures P(TickDisk(t, e))
    {
      MoveOnly(t, e);
    }
    forall t, e | Ready(t, e) && EndsNow(t, e) && P(t) {
      EndingWindow(t, e, window);
    }
  }

  /** A bounded window grows by one with every report, and otherwise stays as it was. */
  lemma TicksWindow(s: Sim, window: int, n: nat)
    requires Inv(s) && WindowFrom(window)(s) && (window == -1 || window > 0)
    ensures WindowFrom(window)(Ticks(s, n))
  {
    WindowKept(window);
    PartsKeepTicks(WindowFrom(window));
    TicksKeepAll(WindowFrom(window), s, n);
  }
}
