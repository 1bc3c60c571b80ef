/** Whole runs of raid-graphics.py: when they finish, what has been done by then, and how the heads move. */
module SimRuns {
  import opened Arithmetic
  import opened Sums
  import opened SimRequest
  import opened SimState
  import opened SimProofs
  import opened SimTicks
  import opened SimSeek
  import opened SimHistory
  import opened SimService
  import opened SimSetup
  import opened SimFullStripe

  /** The state of a run after n calls of Animate. */
  ghost function RunState(m: Mapping, speed: int, asks: seq<Ask>, window: int, n: nat): (s: Sim)
    requires Legal(m, speed, asks, window)
    ensures Inv(s)
  {
    StartedOk(m, speed, asks, window);
    Ticks(StartedRun(m, speed, asks, window), n)
  }

  // ---------- what a user can check before a run ----------

  /** The seek speed divides the distance of every requested row from row 0, where the heads start. */
  ghost predicate OnRows(m: Mapping, speed: int, asks: seq<Ask>) {
    forall i :: 0 <= i < |asks| ==> RowOk(speed, RowOf(m, asks[i].logical))
  }

  /** At level 4, every marked triple consists of three writes. */
  ghost predicate GoalRight(m: Mapping, asks: seq<Ask>) { m.Parity4? ==> MarkedAreWrites(asks) }

  /** The first or second entry of a marked triple. */
  ghost predicate MarkedData(asks: seq<Ask>, i: nat) { i < |asks| && Marked(asks, i / 3) && i % 3 != 2 }

  /** No entry queued earlier is on the same data disk. */
  ghost predicate HomeFree(asks: seq<Ask>, i: nat)
    requires i < |asks|
  {
    forall j :: 0 <= j < i ==> asks[j].logical % (DISK_COUNT - 1) != asks[i].logical % (DISK_COUNT - 1)
  }

  ghost predicate HomesFree(asks: seq<Ask>) {
    forall i: nat :: MarkedData(asks, i) ==> HomeFree(asks, i)
  }

  /** Every data write of a marked triple finds its data disk free. */
  ghost predicate DataSafe(m: Mapping, asks: seq<Ask>, window: int) {
    m.Parity4? ==> window == 1 || HomesFree(asks)
  }

  // ---------- a run and its set-up ----------

  /** The goal and the work stay as set up, and every request is a later state of what was asked for. */
  lemma RunKeeps(m: Mapping, speed: int, asks: seq<Ask>, window: int, n: nat)
    requires Legal(m, speed, asks, window)
    ensures var t := RunState(m, speed, asks, window, n);
            && t.needed == Goal(m, asks) && t.work == Work(m, asks, |asks|)
            && Later(InitSim(m, speed, asks, window), t)
  {
    var s := StartedRun(m, speed, asks, window);
    StartedOk(m, speed, asks, window);
    TicksKeep(s, n);
    TicksAreLater(s, n);
    LaterTransitive(InitSim(m, speed, asks, window), s, Ticks(s, n));
  }

  lemma RowsFromAsks(m: Mapping, speed: int, asks: seq<Ask>, window: int)
    requires Legal(m, speed, asks, window)
    ensures RowsOk(InitSim(m, speed, asks, window)) <==> OnRows(m, speed, asks)
  {
    InitOk(m, speed, asks, window);
    var s := InitSim(m, speed, asks, window);
    assert forall i :: 0 <= i < |asks| ==> s.reqs[i].offset == RowOf(m, asks[i].logical);
  }

  lemma RunRows(m: Mapping, speed: int, asks: seq<Ask>, window: int, n: nat)
    requires Legal(m, speed, asks, window) && OnRows(m, speed, asks)
    ensures RowsOk(RunState(m, speed, asks, window, n))
  {
    var s := InitSim(m, speed, asks, window);
    RowsFromAsks(m, speed, asks, window);
    RunKeeps(m, speed, asks, window, n);
    LaterReflexive(s);
    LaterTransitive(s, s, RunState(m, speed, asks, window, n));
  }

  // ---------- what holds in every state of a run ----------

  /** The heads stay on the lattice of the seek speed, in every run. */
  lemma HeadsOnLattice(m: Mapping, speed: int, asks: seq<Ask>, window: int, n: nat, d: int)
    requires Legal(m, speed, asks, window) && 0 <= d < DISK_COUNT
    ensures (RunState(m, speed, asks, window, n).disks[d].y - 100) % speed == 0
  {
    RunKeeps(m, speed, asks, window, n);
    assert DiskOk(RunState(m, speed, asks, window, n), d);
  }

  /**
   In every state the queue holds what was asked for, on the disks and rows of the design, each request reported
   at most once, and exactly if the I/Os counted for it are over.
   */
  lemma ReportsInRun(m: Mapping, speed: int, asks: seq<Ask>, window: int, n: nat, i: nat)
    requires Legal(m, speed, asks, window) && i < |asks|
    ensures var t := RunState(m, speed, asks, window, n);
            && i < |t.reqs| && t.reqs[i].logical == asks[i].logical && t.reqs[i].op == asks[i].op
            && AtHome(m, t.reqs[i])
            && t.reqs[i].reports <= 1 && (t.reqs[i].reports == 1 <==> IOsOver(m, t.reqs[i]))
  {
    var t := RunState(m, speed, asks, window, n);
    RunKeeps(m, speed, asks, window, n);
    var r := InitReq(m, asks, i);
    NewReqOk(m, r.logical, r.op, r.fullStripe, r.fullParity);
    assert LaterReq(speed, r, t.reqs[i]) && ReqOk(m, t.reqs[i]);
    ReportedExactlyWhenDone(m, t.reqs[i]);
  }

  /** request_count is all reads plus all writes made; with the right goal it meets it exactly when all is reported. */
  lemma GoalMeansDone(m: Mapping, speed: int, asks: seq<Ask>, window: int, n: nat)
    requires Legal(m, speed, asks, window)
    ensures var t := RunState(m, speed, asks, window, n);
            && t.count == DiskIOs(t)
            && (GoalRight(m, asks) ==> (t.count == t.needed <==> EachReported(t)))
  {
    RunKeeps(m, speed, asks, window, n);
    CountWhenReported(RunState(m, speed, asks, window, n));
    GoalExact(m, asks);
  }

  /** On rows the speed can hit, every seek of every run ends on its target, after |target - head| / seek_speed ticks. */
  lemma EverySeekEnds(m: Mapping, speed: int, asks: seq<Ask>, window: int, n: nat, d: nat)
    requires Legal(m, speed, asks, window) && GoalRight(m, asks) && OnRows(m, speed, asks) && d < DISK_COUNT
    requires RunState(m, speed, asks, window, n).disks[d].state.Seek?
    ensures var s := RunState(m, speed, asks, window, n);
            && Seeking(s, d) && Distance(s, d) % speed == 0
            && forall k: nat :: k <= Distance(s, d) / speed ==> (ArrivedAt(s, d, k) <==> k == Distance(s, d) / speed)
  {
    var s := RunState(m, speed, asks, window, n);
    RunKeeps(m, speed, asks, window, n);
    RunRows(m, speed, asks, window, n);
    RunLives(m, speed, asks, window, n);
    OnCourse(s, d);
    SeekEndsExactly(s, d);
  }

  lemma RunLives(m: Mapping, speed: int, asks: seq<Ask>, window: int, n: nat)
    requires Legal(m, speed, asks, window) && GoalRight(m, asks)
    ensures Live(RunState(m, speed, asks, window, n))
  {
    GoalExact(m, asks);
    StartedOk(m, speed, asks, window);
    TicksOk(StartedRun(m, speed, asks, window), n);
  }

  // ---------- what the disks record, in every state of a run ----------

  lemma InitRecords(m: Mapping, speed: int, asks: seq<Ask>, window: int)
    requires Legal(m, speed, asks, window)
    ensures var s := InitSim(m, speed, asks, window);
            AllRest(s) && AllCounted(s) && WindowFrom(window)(s)
  {
    var s := InitSim(m, speed, asks, window);
    forall d | 0 <= d < DISK_COUNT
      ensures Counted(s, d)
    {
      TotalUniform(s.reqs, EndsOn(d, OpRead), 0);
      TotalUniform(s.reqs, EndsOn(d, OpWrite), 0);
    }
  }

  lemma StartedRecords(m: Mapping, speed: int, asks: seq<Ask>, window: int)
    requires Legal(m, speed, asks, window)
    ensures var s := StartedRun(m, speed, asks, window);
            AllRest(s) && AllCounted(s) && WindowFrom(window)(s)
  {
    var s := InitSim(m, speed, asks, window);
    InitOk(m, speed, asks, window);
    InitRecords(m, speed, asks, window);
    RestKept();
    CountedKept();
    WindowKept(window);
    SchedulingKeeps(AllRest, s);
    SchedulingKeeps(AllCounted, s);
    SchedulingKeeps(WindowFrom(window), s);
  }

  /**
   In every state of a run: the disks' last two targets are the end of what they have served, idle heads stand on
   the row served last, the read and write counters are the I/Os ended on the disk, and a bounded window has grown
   by one with every report.
   */
  lemma RunRecords(m: Mapping, speed: int, asks: seq<Ask>, window: int, n: nat)
    requires Legal(m, speed, asks, window)
    ensures var t := RunState(m, speed, asks, window, n);
            && AllRest(t) && AllCounted(t) && t.window == (if window == -1 then -1 else window + t.logical)
  {
    var s := StartedRun(m, speed, asks, window);
    StartedOk(m, speed, asks, window);
    StartedRecords(m, speed, asks, window);
    TicksRest(s, n);
    TicksCounted(s, n);
    TicksWindow(s, window, n);
  }

  /** The run from tick n on is Ticks from its state there. */
  lemma RunAdd(m: Mapping, speed: int, asks: seq<Ask>, window: int, n: nat, k: nat)
    requires Legal(m, speed, asks, window)
    ensures RunState(m, speed, asks, window, n + k) == Ticks(RunState(m, speed, asks, window, n), k)
  {
    StartedOk(m, speed, asks, window);
    TicksAdd(StartedRun(m, speed, asks, window), n, k);
  }

  /** What a disk has served in a run stays served, and more is added at the end. */
  lemma ServedInRun(m: Mapping, speed: int, asks: seq<Ask>, window: int, n: nat, k: nat, d: nat)
    requires Legal(m, speed, asks, window) && d < DISK_COUNT
    ensures RunDisk(m, speed, asks, window, n, d).served <= RunDisk(m, speed, asks, window, n + k, d).served
  {
    RunAdd(m, speed, asks, window, n, k);
    ServedGrows(RunState(m, speed, asks, window, n), d, k);
  }

  /** The row of the request that the disk is serving, and that of the one it served before; -1 if there is none. */
  ghost predicate RowsServed(m: Mapping, asks: seq<Ask>, served: seq<int>, row: int, before: int) {
    && |served| >= 1 && 0 <= served[|served| - 1] < |asks|
    && row == RowOf(m, asks[served[|served| - 1]].logical)
    && if |served| == 1 then before == -1
       else 0 <= served[|served| - 2] < |asks| && before == RowOf(m, asks[served[|served| - 2]].logical)
  }

  ghost predicate OnAskedRows(s: Sim, m: Mapping, asks: seq<Ask>) {
    |s.reqs| == |asks| && forall i :: 0 <= i < |asks| ==> s.reqs[i].offset == RowOf(m, asks[i].logical)
  }

  lemma QueueRows(m: Mapping, speed: int, asks: seq<Ask>, window: int, n: nat)
    requires Legal(m, speed, asks, window)
    ensures OnAskedRows(RunState(m, speed, asks, window, n), m, asks)
  {
    var s := RunState(m, speed, asks, window, n);
    RunKeeps(m, speed, asks, window, n);
    forall i | 0 <= i < |asks|
      ensures s.reqs[i].offset == RowOf(m, asks[i].logical)
    {
      assert LaterReq(speed, InitReq(m, asks, i), s.reqs[i]);
    }
  }

  lemma ServedRows(s: Sim, m: Mapping, asks: seq<Ask>, d: nat, row: int, before: int)
    requires AllRemember(s) && d < DISK_COUNT && !s.disks[d].state.Idle? && OnAskedRows(s, m, asks)
    requires RowsServed(m, asks, s.disks[d].served, row, before)
    ensures TransferTicks(s, d) == if row == before + 1 then 1 else 10
    ensures 0 <= s.disks[d].target < |s.reqs| && s.reqs[s.disks[d].target].offset == row
  {
    LastTwo(s.disks[d], |s.reqs|);
  }

  /** How many moves the head is away. */
  lemma MovesToRow(s: Sim, d: nat, row: int) returns (a: nat)
    requires Seeking(s, d) && s.reqs[s.disks[d].target].offset == row && RowOk(s.speed, row)
    ensures Nears(s, d, a) && Abs(20 * row + 100 - s.disks[d].y) == a * s.speed
  {
    OnCourse(s, d);
    DivModParts(Distance(s, d), s.speed);
    a := Distance(s, d) / s.speed;
  }

  /** A disk in a state of a run. */
  ghost function RunDisk(m: Mapping, speed: int, asks: seq<Ask>, window: int, n: nat, d: nat): Disk
    requires Legal(m, speed, asks, window) && d < DISK_COUNT
  {
    RunState(m, speed, asks, window, n).disks[d]
  }

  lemma SeekingInRun(m: Mapping, speed: int, asks: seq<Ask>, window: int, n: nat, d: nat)
    requires Legal(m, speed, asks, window) && GoalRight(m, asks) && d < DISK_COUNT
    requires RunDisk(m, speed, asks, window, n, d).state.Seek?
    ensures var s := RunState(m, speed, asks, window, n);
            Seeking(s, d) && AllRemember(s) && OnAskedRows(s, m, asks) && s.speed == speed
  {
    RunRecords(m, speed, asks, window, n);
    RunLives(m, speed, asks, window, n);
    RunKeeps(m, speed, asks, window, n);
    QueueRows(m, speed, asks, window, n);
  }

  lemma ServedTakes(s: Sim, m: Mapping, asks: seq<Ask>, d: nat, row: int, before: int) returns (a: nat)
    requires Seeking(s, d) && AllRemember(s) && OnAskedRows(s, m, asks)
    requires RowsServed(m, asks, s.disks[d].served, row, before) && RowOk(s.speed, row)
    ensures Abs(20 * row + 100 - s.disks[d].y) == a * s.speed
    ensures IOEndsAfter(s, d, a + if row == before + 1 then 1 else 10)
  {
    ServedRows(s, m, asks, d, row, before);
    a := MovesToRow(s, d, row);
    ServiceTakes(s, d, a);
  }

  /**
   The time an I/O takes, from any tick n at which its disk is seeking a row that the speed can hit: the a moves
   that bring the head to the row, and then one tick if the row comes right after that of the request the disk
   served before (row -1 if there is none), and ten otherwise, the tick of arrival included; not sooner, and
   whatever the other disks do.
   */
  lemma IOTakes(m: Mapping, speed: int, asks: seq<Ask>, window: int, n: nat, d: nat, row: int, before: int)
    returns (a: nat)
    requires Legal(m, speed, asks, window) && GoalRight(m, asks) && d < DISK_COUNT && RowOk(speed, row)
    requires var k := RunDisk(m, speed, asks, window, n, d);
             k.state.Seek? && RowsServed(m, asks, k.served, row, before)
    ensures Abs(20 * row + 100 - RunDisk(m, speed, asks, window, n, d).y) == a * speed
    ensures IOEndsAfter(RunState(m, speed, asks, window, n), d, a + if row == before + 1 then 1 else 10)
  {
    SeekingInRun(m, speed, asks, window, n, d);
    a := ServedTakes(RunState(m, speed, asks, window, n), m, asks, d, row, before);
  }

  // ---------- when a run finishes ----------

  lemma RunBegins(m: Mapping, speed: int, asks: seq<Ask>, window: int)
    requires Legal(m, speed, asks, window) && GoalRight(m, asks)
    ensures var s := RunState(m, speed, asks, window, 0);
            s == StartedRun(m, speed, asks, window) && Measure(s) <= 400 * Goal(m, asks)
  {
    GoalExact(m, asks);
    StartedOk(m, speed, asks, window);
  }

  /** Each tick of a running simulation leads to the next state of the run, and uses up some of the measure. */
  lemma RunAdvances(m: Mapping, speed: int, asks: seq<Ask>, window: int, n: nat)
    requires Legal(m, speed, asks, window) && OnRows(m, speed, asks) && GoalRight(m, asks)
    requires RunState(m, speed, asks, window, n).running
    ensures var s := RunState(m, speed, asks, window, n);
            var t := RunState(m, speed, asks, window, n + 1);
            t == Animate(s) && 0 <= Measure(t) < Measure(s)
  {
    RunLives(m, speed, asks, window, n);
    RunRows(m, speed, asks, window, n);
    TickOk(RunState(m, speed, asks, window, n));
    StartedOk(m, speed, asks, window);
    OneMoreTick(StartedRun(m, speed, asks, window), n);
    MeasureNonNegative(RunState(m, speed, asks, window, n + 1));
  }

  /** A request on a row that the heads cannot stop on is never reported. */
  lemma OffRowNeverReported(m: Mapping, speed: int, asks: seq<Ask>, window: int, n: nat, i: nat)
    requires Legal(m, speed, asks, window) && i < |asks| && !RowOk(speed, RowOf(m, asks[i].logical))
    ensures i < |RunState(m, speed, asks, window, n).reqs| && RunState(m, speed, asks, window, n).reqs[i].reports == 0
  {
    RunKeeps(m, speed, asks, window, n);
    InitOk(m, speed, asks, window);
    var r := InitSim(m, speed, asks, window).reqs[i];
    assert LaterReq(speed, r, RunState(m, speed, asks, window, n).reqs[i]) && r.offset == RowOf(m, asks[i].logical);
  }

  /** A finished run had the right goal and only rows its heads could stop on. */
  lemma FinishedNeeds(m: Mapping, speed: int, asks: seq<Ask>, window: int, n: nat)
    requires Legal(m, speed, asks, window) && Finished(RunState(m, speed, asks, window, n))
    ensures OnRows(m, speed, asks) && GoalRight(m, asks)
  {
    var t := RunState(m, speed, asks, window, n);
    RunKeeps(m, speed, asks, window, n);
    CountWhenReported(t);
    GoalExact(m, asks);
    forall i: nat | i < |asks|
      ensures RowOk(speed, RowOf(m, asks[i].logical))
    {
      if !RowOk(speed, RowOf(m, asks[i].logical)) {
        OffRowNeverReported(m, speed, asks, window, n, i);
      }
    }
  }

  lemma FinishesInTime(m: Mapping, speed: int, asks: seq<Ask>, window: int) returns (n: nat)
    requires Legal(m, speed, asks, window) && OnRows(m, speed, asks) && GoalRight(m, asks)
    ensures n <= 400 * Goal(m, asks) && Finished(RunState(m, speed, asks, window, n))
  {
    var s := StartedRun(m, speed, asks, window);
    StartedOk(m, speed, asks, window);
    GoalExact(m, asks);
    RunRows(m, speed, asks, window, 0);
    RunsToCompletion(s);
    n := Measure(s);
  }

  /**
   For every request list, mapping, window and seek speed: the simulation stops with every request reported
   once and the I/Os counted for it made exactly if the heads can stop on every requested row and, at level 4,
   every marked triple is three writes; and then it does so within 400 ticks per physical I/O.
   */
  lemma SimulationFinishes(m: Mapping, speed: int, asks: seq<Ask>, window: int)
    requires Legal(m, speed, asks, window)
    ensures (exists n: nat :: Finished(RunState(m, speed, asks, window, n)))
            <==> OnRows(m, speed, asks) && GoalRight(m, asks)
    ensures OnRows(m, speed, asks) && GoalRight(m, asks) ==>
              exists n: nat :: n <= 400 * Goal(m, asks) && Finished(RunState(m, speed, asks, window, n))
  {
    if OnRows(m, speed, asks) && GoalRight(m, asks) {
      var n := FinishesInTime(m, speed, asks, window);
    }
    if n: nat :| Finished(RunState(m, speed, asks, window, n)) {
      FinishedNeeds(m, speed, asks, window, n);
    }
  }

  /** Seek speed 3 cannot stop on row 1: a read of block 4 of four striped disks is never reported. */
  lemma SpeedThreeFails(n: nat)
    ensures var asks := [Ask(4, OpRead)];
            Legal(Striped, 3, asks, -1) && !EachReported(RunState(Striped, 3, asks, -1, n))
  {
    var asks := [Ask(4, OpRead)];
    assert asks[0].logical == 4 && RowOf(Striped, 4) == 1 && !RowOk(3, 1);
    OffRowNeverReported(Striped, 3, asks, -1, n, 0);
  }

  // ---------- when every write reaches its data disk ----------

  lemma InitDataWrite(m: Mapping, speed: int, asks: seq<Ask>, window: int, i: nat)
    requires Legal(m, speed, asks, window) && DataWriteAt(InitSim(m, speed, asks, window), i)
    ensures i < |asks| && MarkedData(asks, i)
    ensures HomeFree(asks, i) ==> KeepsHome(InitSim(m, speed, asks, window), i)
  {
    var s := InitSim(m, speed, asks, window);
    InitOk(m, speed, asks, window);
    HomeOnArray(s, i);
    assert forall j :: 0 <= j <= i ==> s.reqs[j].disk0 == asks[j].logical % (DISK_COUNT - 1);
  }

  lemma NarrowRun(speed: int, asks: seq<Ask>, n: nat)
    requires Legal(Parity4, speed, asks, 1)
    ensures Narrow(RunState(Parity4, speed, asks, 1, n))
  {
    InitOk(Parity4, speed, asks, 1);
    StartedOk(Parity4, speed, asks, 1);
    NarrowNext(InitSim(Parity4, speed, asks, 1));
    NarrowStays(StartedRun(Parity4, speed, asks, 1), n);
  }

  lemma HomeFreeRun(speed: int, asks: seq<Ask>, window: int, n: nat, i: nat)
    requires Legal(Parity4, speed, asks, window) && HomesFree(asks)
    requires DataWriteAt(InitSim(Parity4, speed, asks, window), i)
    ensures KeepsHome(RunState(Parity4, speed, asks, window, n), i)
  {
    InitOk(Parity4, speed, asks, window);
    InitDataWrite(Parity4, speed, asks, window, i);
    StartedOk(Parity4, speed, asks, window);
    HomeNext(InitSim(Parity4, speed, asks, window), i);
    ApartStaysHome(StartedRun(Parity4, speed, asks, window), i, n);
  }

  /** Under the condition no data write is ever begun on the parity disk. */
  lemma NoneOffHome(speed: int, asks: seq<Ask>, window: int, n: nat, i: nat)
    requires Legal(Parity4, speed, asks, window) && DataSafe(Parity4, asks, window)
    requires DataWriteAt(RunState(Parity4, speed, asks, window, n), i)
    ensures !OffHome(RunState(Parity4, speed, asks, window, n).reqs[i])
  {
    if window == 1 {
      NarrowRun(speed, asks, n);
    } else {
      var s := InitSim(Parity4, speed, asks, window);
      RunKeeps(Parity4, speed, asks, window, n);
      assert LaterReq(speed, s.reqs[i], RunState(Parity4, speed, asks, window, n).reqs[i]);
      HomeFreeRun(speed, asks, window, n, i);
    }
  }

  lemma FinishedAtHome(m: Mapping, speed: int, asks: seq<Ask>, window: int, n: nat)
    requires Legal(m, speed, asks, window) && DataSafe(m, asks, window)
    requires Finished(RunState(m, speed, asks, window, n))
    ensures Completed(RunState(m, speed, asks, window, n))
  {
    var t := RunState(m, speed, asks, window, n);
    RunKeeps(m, speed, asks, window, n);
    forall i: nat | i < |t.reqs|
      ensures AllIOsDone(m, t.reqs[i])
    {
      assert ReqOk(m, t.reqs[i]);
      ReportedExactlyWhenDone(m, t.reqs[i]);
      if DataWriteAt(t, i) {
        NoneOffHome(speed, asks, window, n, i);
      }
    }
  }

  /**
   If moreover, at level 4, the window is 1 or no entry before a marked data write is on its data disk, the
   simulation stops with every write on its data disk as well: nothing asked for is left undone.
   */
  lemma SimulationCompletes(m: Mapping, speed: int, asks: seq<Ask>, window: int)
    requires Legal(m, speed, asks, window)
    requires OnRows(m, speed, asks) && GoalRight(m, asks) && DataSafe(m, asks, window)
    ensures exists n: nat :: n <= 400 * Goal(m, asks) && Completed(RunState(m, speed, asks, window, n))
  {
    var n := FinishesInTime(m, speed, asks, window);
    FinishedAtHome(m, speed, asks, window, n);
  }

  /** A run that has stopped has finished, and completed if the list and the window are safe. */
  lemma RunStops(m: Mapping, speed: int, asks: seq<Ask>, window: int, n: nat)
    requires Legal(m, speed, asks, window) && GoalRight(m, asks)
    requires !RunState(m, speed, asks, window, n).running
    ensures var s := RunState(m, speed, asks, window, n);
            && Finished(s) && s.count == Goal(m, asks) && Measure(s) >= 0
            && (DataSafe(m, asks, window) ==> Completed(s))
  {
    var s := RunState(m, speed, asks, window, n);
    RunLives(m, speed, asks, window, n);
    RunKeeps(m, speed, asks, window, n);
    StoppedIsFinished(s);
    MeasureNonNegative(s);
    if DataSafe(m, asks, window) {
      FinishedAtHome(m, speed, asks, window, n);
    }
  }

  /** Before any marked triple there are only reads. */
  ghost predicate ReadsFirst(asks: seq<Ask>) {
    forall t: nat, j: nat :: Marked(asks, t) && j < 3 * t ==> asks[j].op == OpRead
  }

  lemma {:induction false} WorkAtLeast(m: Mapping, asks: seq<Ask>, n: nat)
    requires n <= |asks|
    ensures Work(m, asks, n) >= n
  {
    if n > 0 {
      WorkAtLeast(m, asks, n - 1);
    }
  }

  /** Entry j is queued before marked data write k, and on its data disk. */
  ghost predicate SharesHome(asks: seq<Ask>, j: nat, k: nat) {
    MarkedData(asks, k) && j < k && asks[j].logical % (DISK_COUNT - 1) == asks[k].logical % (DISK_COUNT - 1)
  }

  /** What is known of a marked triple, a being its first entry. */
  lemma TripleEntries(asks: seq<Ask>, k: nat) returns (a: nat)
    requires MarkedAreWrites(asks) && ReadsFirst(asks) && MarkedData(asks, k)
    ensures a + 1 < |asks| && (k == a || k == a + 1) && MarkedData(asks, a) && MarkedData(asks, a + 1)
    ensures asks[a].op == asks[a + 1].op == OpWrite && asks[a + 1].logical == asks[a].logical + 1
    ensures forall x :: 0 <= x < a ==> asks[x].op == OpRead
  {
    a := k - k % 3;
    assert a == 3 * (k / 3) && a / 3 == (a + 1) / 3 == k / 3 && a % 3 == 0 && (a + 1) % 3 == 1;
    assert TripleWrites(asks, k / 3);
  }

  lemma NeighboursApart(x: nat)
    ensures x % (DISK_COUNT - 1) != (x + 1) % (DISK_COUNT - 1)
  {
  }

  /** An entry that shares the data disk is outside the triple, so it is a read. */
  lemma SharedIsRead(asks: seq<Ask>, j: nat, k: nat)
    requires MarkedAreWrites(asks) && ReadsFirst(asks) && SharesHome(asks, j, k)
    ensures asks[j].op == OpRead
  {
    var a := TripleEntries(asks, k);
    if j >= a {
      NeighboursApart(asks[j].logical);
    }
  }

  /** A level-4 queue before the start: as asked for, nothing begun, and the marked writes marked. */
  ghost predicate FreshQueue(s: Sim, asks: seq<Ask>) {
    && |s.reqs| == |asks|
    && forall x: nat :: x < |asks| ==>
         && s.reqs[x].disk0 == asks[x].logical % (DISK_COUNT - 1) && s.reqs[x].op == asks[x].op && Waiting(s.reqs[x])
         && (MarkedData(asks, x) && asks[x].op == OpWrite ==> DataWriteAt(s, x))
  }

  lemma InitQueue(speed: int, asks: seq<Ask>, window: int)
    requires Legal(Parity4, speed, asks, window)
    ensures FreshQueue(InitSim(Parity4, speed, asks, window), asks)
  {
  }

  lemma SharedIsShadow(s: Sim, asks: seq<Ask>, j: nat, k: nat)
    requires FreshQueue(s, asks) && (s.window == -1 || s.window >= |asks|)
    requires MarkedAreWrites(asks) && ReadsFirst(asks) && SharesHome(asks, j, k)
    ensures Shadows(s, j, k)
  {
    var a := TripleEntries(asks, k);
    SharedIsRead(asks, j, k);
  }

  /** A run with a right goal and something to do does not start at its goal. */
  lemma GoalAhead(m: Mapping, speed: int, asks: seq<Ask>, window: int)
    requires Legal(m, speed, asks, window) && GoalRight(m, asks) && asks != []
    ensures var s := InitSim(m, speed, asks, window);
            s.count != s.needed && s.disks[PARITY_DISK].state.Idle?
  {
    GoalExact(m, asks);
    WorkAtLeast(m, asks, |asks|);
  }

  /** Before the start both data writes wait behind reads, with every disk idle and the goal not reached. */
  lemma QueueReady(s: Sim, asks: seq<Ask>, k: nat) returns (a: nat)
    requires Inv(s) && FreshQueue(s, asks) && s.count != s.needed && s.disks[PARITY_DISK].state.Idle?
    requires s.window == -1 || s.window >= |asks|
    requires MarkedAreWrites(asks) && ReadsFirst(asks) && MarkedData(asks, k)
    ensures StealReady(s, a, k) && a + 1 < |asks|
    ensures MarkedData(asks, a) && MarkedData(asks, a + 1) && asks[a].op == asks[a + 1].op == OpWrite
  {
    a := TripleEntries(asks, k);
  }

  /** Then one of the two data writes of the triple starts on the parity disk. */
  lemma Stolen(speed: int, asks: seq<Ask>, window: int, j: nat, k: nat) returns (i: nat)
    requires Legal(Parity4, speed, asks, window) && (window == -1 || window >= |asks|)
    requires MarkedAreWrites(asks) && ReadsFirst(asks) && SharesHome(asks, j, k)
    ensures var t := StartedRun(Parity4, speed, asks, window);
            i < |asks| == |t.reqs| && MarkedData(asks, i) && asks[i].op == OpWrite && OffHome(t.reqs[i])
  {
    var s := InitSim(Parity4, speed, asks, window);
    InitOk(Parity4, speed, asks, window);
    InitQueue(speed, asks, window);
    SharedIsShadow(s, asks, j, k);
    GoalAhead(Parity4, speed, asks, window);
    var a := QueueReady(s, asks, k);
    StolenAtStart(s, a, j, k);
    i := if OffHome(StartedRun(Parity4, speed, asks, window).reqs[a]) then a else a + 1;
  }

  /** A data write that has begun on the parity disk is never done there. */
  lemma OffHomeNotDone(speed: int, asks: seq<Ask>, window: int, i: nat, n: nat)
    requires Legal(Parity4, speed, asks, window) && i < |asks| && MarkedData(asks, i) && asks[i].op == OpWrite
    requires |StartedRun(Parity4, speed, asks, window).reqs| == |asks|
    requires OffHome(StartedRun(Parity4, speed, asks, window).reqs[i])
    ensures !Completed(RunState(Parity4, speed, asks, window, n))
  {
    var s := StartedRun(Parity4, speed, asks, window);
    var t := RunState(Parity4, speed, asks, window, n);
    StartedOk(Parity4, speed, asks, window);
    TicksAreLater(s, n);
    RunKeeps(Parity4, speed, asks, window, n);
    assert LaterReq(speed, s.reqs[i], t.reqs[i]) && LaterReq(speed, InitReq(Parity4, asks, i), t.reqs[i]);
    assert ReqOk(Parity4, t.reqs[i]);
    ReportedExactlyWhenDone(Parity4, t.reqs[i]);
  }

  /** So the run never completes: a write is reported done without its data disk having been written. */
  lemma StolenNeverCompletes(speed: int, asks: seq<Ask>, window: int, j: nat, k: nat, n: nat)
    requires Legal(Parity4, speed, asks, window) && (window == -1 || window >= |asks|)
    requires MarkedAreWrites(asks) && ReadsFirst(asks) && SharesHome(asks, j, k)
    ensures !Completed(RunState(Parity4, speed, asks, window, n))
  {
    var i := Stolen(speed, asks, window, j, k);
    OffHomeNotDone(speed, asks, window, i, n);
  }

  /**
   With the default window, or one that takes in the whole list, and only reads before the marked triple, the
   condition on the list is exact: the run completes if and only if no entry before a marked data write is on
   its data disk.
   */
  lemma DataReachedExactly(speed: int, asks: seq<Ask>, window: int)
    requires Legal(Parity4, speed, asks, window) && (window == -1 || window >= |asks|)
    requires OnRows(Parity4, speed, asks) && MarkedAreWrites(asks) && ReadsFirst(asks)
    ensures (exists n: nat :: Completed(RunState(Parity4, speed, asks, window, n))) <==> HomesFree(asks)
  {
    if HomesFree(asks) {
      SimulationCompletes(Parity4, speed, asks, window);
    }
    if n: nat :| Completed(RunState(Parity4, speed, asks, window, n)) {
      forall k: nat, j: nat | MarkedData(asks, k) && j < k
        ensures asks[j].logical % (DISK_COUNT - 1) != asks[k].logical % (DISK_COUNT - 1)
      {
        if SharesHome(asks, j, k) {
          StolenNeverCompletes(speed, asks, window, j, k, n);
        }
      }
    }
  }

  /** Three reads of disk 0 and then a full stripe. */
  ghost function StripeAfterReads(): seq<Ask> {
    [Ask(0, OpRead), Ask(3, OpRead), Ask(6, OpRead), Ask(0, OpWrite), Ask(1, OpWrite), Ask(2, OpWrite)]
  }

  lemma StripeAfterReadsFacts()
    ensures var asks := StripeAfterReads();
            && |asks| == 6 && Legal(Parity4, 4, asks, -1) && OnRows(Parity4, 4, asks)
            && MarkedAreWrites(asks) && ReadsFirst(asks) && SharesHome(asks, 0, 3)
  {
    var asks := StripeAfterReads();
    assert Marked(asks, 1) && TripleWrites(asks, 1);
    assert forall t: nat :: Marked(asks, t) ==> t == 1;
    assert forall i :: 0 <= i < |asks| ==> 0 <= RowOf(Parity4, asks[i].logical) <= 2;
    assert RowOk(4, 0) && RowOk(4, 1) && RowOk(4, 2);
  }

  /** At the default speed and window that run finishes, every request reported, and yet it never completes. */
  lemma FullStripeFails()
    ensures Legal(Parity4, 4, StripeAfterReads(), -1)
    ensures exists n: nat :: Finished(RunState(Parity4, 4, StripeAfterReads(), -1, n))
    ensures forall n: nat :: !Completed(RunState(Parity4, 4, StripeAfterReads(), -1, n))
  {
    var asks := StripeAfterReads();
    StripeAfterReadsFacts();
    SimulationFinishes(Parity4, 4, asks, -1);
    forall n: nat
      ensures !Completed(RunState(Parity4, 4, asks, -1, n))
    {
      StolenNeverCompletes(4, asks, -1, 0, 3, n);
    }
  }

  // ---------- the parity of a full stripe ----------

  /** Queue entry j is in the row of entry i and has begun to write the parity disk. */
  ghost predicate WroteParityOf(s: Sim, j: int, i: int) {
    && 0 <= i < |s.reqs| && 0 <= j < |s.reqs|
    && s.reqs[j].offset == s.reqs[i].offset && s.reqs[j].history.Has(Begin(PARITY_DISK, OpWrite))
  }

  /** A write of this row that has, or has not, written the parity disk. */
  ghost predicate DoneIn(r: Req, row: int, parity: bool) {
    r.offset == row && (r.history.Has(Begin(PARITY_DISK, OpWrite)) <==> parity)
  }

  /** The rows of a marked triple, and which of its entries has written parity. */
  ghost predicate TripleDone(s: Sim, t: nat, logical: nat) {
    && 3 * t + 2 < |s.reqs|
    && DoneIn(s.reqs[3 * t], logical / 3, false)
    && DoneIn(s.reqs[3 * t + 1], (logical + 1) / 3, false)
    && DoneIn(s.reqs[3 * t + 2], (logical + 2) / 3, true)
  }

  lemma WroteParity(r: Req)
    requires ReqOk(Parity4, r) && AllIOsDone(Parity4, r) && r.op == OpWrite && r.fullStripe
    ensures r.history.Has(Begin(PARITY_DISK, OpWrite)) <==> r.fullParity
  {
    if r.fullParity {
      EndedBegan(r.disk1, OpWrite, r.disk1);
      LaneMember(r.history, r.disk1, Begin(r.disk1, OpWrite));
    } else {
      EndedBegan(r.disk0, OpWrite, PARITY_DISK);
    }
  }

  lemma EntryDone(asks: seq<Ask>, t: nat, k: nat, r: Req)
    requires Marked(asks, t) && k < 3 && asks[3 * t + k].op == OpWrite
    requires ReqOk(Parity4, r) && AllIOsDone(Parity4, r) && SameRequest(InitReq(Parity4, asks, 3 * t + k), r)
    ensures DoneIn(r, (asks[3 * t].logical + k) / 3, k == 2)
  {
    assert (3 * t + k) / 3 == t && (3 * t + k) % 3 == k;
    WroteParity(r);
  }

  /** All of the list has been done, every write on its data disk. */
  ghost predicate AskedDone(s: Sim, asks: seq<Ask>) {
    |s.reqs| == |asks| &&
    forall i: nat :: i < |asks| ==>
      ReqOk(Parity4, s.reqs[i]) && AllIOsDone(Parity4, s.reqs[i]) && SameRequest(InitReq(Parity4, asks, i), s.reqs[i])
  }

  lemma DoneInRun(speed: int, asks: seq<Ask>, window: int, n: nat)
    requires Legal(Parity4, speed, asks, window) && Completed(RunState(Parity4, speed, asks, window, n))
    ensures AskedDone(RunState(Parity4, speed, asks, window, n), asks)
  {
    var s := RunState(Parity4, speed, asks, window, n);
    RunKeeps(Parity4, speed, asks, window, n);
    forall i: nat | i < |asks|
      ensures ReqOk(Parity4, s.reqs[i]) && AllIOsDone(Parity4, s.reqs[i])
      ensures SameRequest(InitReq(Parity4, asks, i), s.reqs[i])
    {
      assert LaterReq(speed, InitReq(Parity4, asks, i), s.reqs[i]) && ReqOk(s.m, s.reqs[i]);
    }
  }

  lemma TripleOfAsked(s: Sim, asks: seq<Ask>, t: nat)
    requires AskedDone(s, asks) && Marked(asks, t) && TripleWrites(asks, t)
    ensures TripleDone(s, t, asks[3 * t].logical)
  {
    EntryDone(asks, t, 0, s.reqs[3 * t]);
    EntryDone(asks, t, 1, s.reqs[3 * t + 1]);
    EntryDone(asks, t, 2, s.reqs[3 * t + 2]);
  }

  lemma MarkedInRun(speed: int, asks: seq<Ask>, window: int, n: nat, t: nat)
    requires Legal(Parity4, speed, asks, window) && Completed(RunState(Parity4, speed, asks, window, n))
    requires Marked(asks, t)
    ensures TripleDone(RunState(Parity4, speed, asks, window, n), t, asks[3 * t].logical)
  {
    FinishedNeeds(Parity4, speed, asks, window, n);
    DoneInRun(speed, asks, window, n);
    assert TripleWrites(asks, t);
    TripleOfAsked(RunState(Parity4, speed, asks, window, n), asks, t);
  }

  lemma TripleParity(s: Sim, t: nat, logical: nat)
    requires TripleDone(s, t, logical)
    ensures (exists j :: 3 * t <= j < 3 * t + 3 && WroteParityOf(s, j, 3 * t)) <==> logical % 3 == 0
  {
    if j :| 3 * t <= j < 3 * t + 3 && WroteParityOf(s, j, 3 * t) {
      assert j == 3 * t || j == 3 * t + 1 || j == 3 * t + 2;
    }
    if logical % 3 == 0 {
      assert WroteParityOf(s, 3 * t + 2, 3 * t);
    }
  }

  /**
   The marking does not look where a stripe begins: of three marked writes, one writes the parity of the first
   one's row if and only if the first address is a multiple of three.
   */
  lemma FullStripeParity(speed: int, asks: seq<Ask>, window: int, n: nat, t: nat)
    requires Legal(Parity4, speed, asks, window) && Completed(RunState(Parity4, speed, asks, window, n))
    requires Marked(asks, t)
    ensures (exists j :: 3 * t <= j < 3 * t + 3 && WroteParityOf(RunState(Parity4, speed, asks, window, n), j, 3 * t))
            <==> asks[3 * t].logical % 3 == 0
  {
    MarkedInRun(speed, asks, window, n, t);
    TripleParity(RunState(Parity4, speed, asks, window, n), t, asks[3 * t].logical);
  }

  /** Nothing in the queue has written the parity of row 0, though both its entries there have written data. */
  ghost predicate RowZeroStale(s: Sim) {
    |s.reqs| == 3 && forall j :: 0 <= j < 3 ==> !WroteParityOf(s, j, 0) && !WroteParityOf(s, j, 1)
  }

  lemma MisalignedTriple(s: Sim)
    requires TripleDone(s, 0, 1) && |s.reqs| == 3
    ensures RowZeroStale(s)
  {
    assert DoneIn(s.reqs[0], 0, false) && DoneIn(s.reqs[1], 0, false) && DoneIn(s.reqs[2], 1, true);
  }

  lemma MisalignedCompletes() returns (n: nat)
    ensures var asks := [Ask(1, OpWrite), Ask(2, OpWrite), Ask(3, OpWrite)];
            && Legal(Parity4, 4, asks, -1) && Marked(asks, 0)
            && Completed(RunState(Parity4, 4, asks, -1, n)) && |RunState(Parity4, 4, asks, -1, n).reqs| == 3
  {
    var asks := [Ask(1, OpWrite), Ask(2, OpWrite), Ask(3, OpWrite)];
    assert Marked(asks, 0) && TripleWrites(asks, 0);
    assert forall t: nat :: Marked(asks, t) ==> t == 0;
    assert forall i :: 0 <= i < |asks| ==> 0 <= RowOf(Parity4, asks[i].logical) <= 1;
    assert RowOk(4, 0) && RowOk(4, 1);
    SimulationCompletes(Parity4, 4, asks, -1);
    n :| n <= 400 * Goal(Parity4, asks) && Completed(RunState(Parity4, 4, asks, -1, n));
    RunKeeps(Parity4, 4, asks, -1, n);
  }

  /** Writes of blocks 1, 2 and 3: the run completes, and the parity of row 0 is never written. */
  lemma MisalignedStripeFails()
    ensures var asks := [Ask(1, OpWrite), Ask(2, OpWrite), Ask(3, OpWrite)];
            && Legal(Parity4, 4, asks, -1)
            && exists n: nat ::
                 Completed(RunState(Parity4, 4, asks, -1, n)) && RowZeroStale(RunState(Parity4, 4, asks, -1, n))
  {
    var asks := [Ask(1, OpWrite), Ask(2, OpWrite), Ask(3, OpWrite)];
    var n := MisalignedCompletes();
    MarkedInRun(4, asks, -1, n, 0);
    MisalignedTriple(RunState(Parity4, 4, asks, -1, n));
  }
}
