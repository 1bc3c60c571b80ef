/** The disks, the scheduler and the clock of raid-graphics.py, as functions on the simulator's state. */
module SimState {
  import opened Sums
  import opened SimRequest

  datatype DiskState = Idle | Seek | Xfer

  const NO_TARGET: int := -1

  /**
   y is the head; target and last index the request queue. served is the history of the disk, which the program
   does not keep: the queue indices of the requests it has begun I/Os for, in order.
   */
  datatype Disk = Disk(state: DiskState, y: int, delta: int, target: int, last: int, op: Option<Op>, xfer: int,
                       readCount: nat, writeCount: nat, served: seq<int>)

  /**
   running is do_animate; logical is logical_requests; count and needed are request_count and the goal the
   set-up computed; work is how many physical I/Os the requests really need.
   */
  datatype Sim = Sim(m: Mapping, speed: int, disks: seq<Disk>, reqs: seq<Req>, window: int,
                     count: int, needed: int, work: int, logical: int, running: bool)

  const NEW_DISK: Disk := Disk(Idle, 100, 0, NO_TARGET, NO_TARGET, None, -1, 0, 0, [])

  /** offset_to_ypos */
  function YPos(offset: int): int { 20 * offset + 100 }

  /** The row in which the layout drew a logical block; block_offset is its y. */
  function RowOf(m: Mapping, logical: nat): int {
    match m
    case Striped => logical / DISK_COUNT
    case Mirrored => logical / (DISK_COUNT / 2)
    case Parity4 => logical / (DISK_COUNT - 1)
    case Parity5 => logical / (DISK_COUNT - 1)
  }

  /** A busy disk works for a request of the queue. */
  ghost predicate Shape(s: Sim) {
    |s.disks| == DISK_COUNT &&
    forall d :: 0 <= d < DISK_COUNT && !s.disks[d].state.Idle? ==> 0 <= s.disks[d].target < |s.reqs|
  }

  // ---------- scheduling ----------

  /** StartRequest with SetSeekDirection, for the disk: it sets off towards y position dest. */
  function Depart(k: Disk, speed: int, dest: int, index: int, op: Op): Disk {
    k.(state := Seek, delta := if k.y < dest then speed else -speed, last := k.target, target := index, op := Some(op),
       served := k.served + [index])
  }

  function StartRequest(s: Sim, disk: int, index: int, r': Req, op: Op): (t: Sim)
    requires |s.disks| == DISK_COUNT && 0 <= disk < DISK_COUNT && 0 <= index < |s.reqs|
  {
    s.(reqs := s.reqs[index := r'],
       disks := s.disks[disk := Depart(s.disks[disk], s.speed, YPos(RowOf(s.m, r'.logical)), index, op)])
  }

  /** One step of the scheduler's inner loop: requests beyond the window are passed over. */
  function TryStart(s: Sim, disk: int, index: int): Sim
    requires |s.disks| == DISK_COUNT && 0 <= disk < DISK_COUNT && 0 <= index < |s.reqs|
  {
    if s.window != -1 && index >= s.window then s
    else if !s.disks[disk].state.Idle? then s
    else
      match Offer(s.m, s.reqs[index], disk)
      case None => s
      case Some((r', op)) => StartRequest(s, disk, index, r', op)
  }

  function ScheduleDisk(s: Sim, disk: int, n: nat): (t: Sim)
    requires |s.disks| == DISK_COUNT && 0 <= disk < DISK_COUNT && n <= |s.reqs|
    ensures |t.disks| == DISK_COUNT && |t.reqs| == |s.reqs|
  {
    if n == 0 then s else TryStart(ScheduleDisk(s, disk, n - 1), disk, n - 1)
  }

  function ScheduleDisks(s: Sim, n: nat): (t: Sim)
    requires |s.disks| == DISK_COUNT && n <= DISK_COUNT
    ensures |t.disks| == DISK_COUNT && |t.reqs| == |s.reqs|
  {
    if n == 0 then s else ScheduleDisk(ScheduleDisks(s, n - 1), n - 1, |s.reqs|)
  }

  /** GetNextIOs: stop when everything needed is done, otherwise give every idle disk something to do. */
  function GetNextIOs(s: Sim): (t: Sim)
    requires |s.disks| == DISK_COUNT
  {
    if s.count == s.needed then s.(running := false) else ScheduleDisks(s, DISK_COUNT)
  }

  // ---------- one tick of one disk ----------

  /** StartTransfer: the block after the last one is read in one tick, any other in ten. */
  function TransferTime(s: Sim, disk: int): int
    requires Shape(s) && 0 <= disk < DISK_COUNT && !s.disks[disk].state.Idle?
  {
    var k := s.disks[disk];
    var offsetLast := if 0 <= k.last < |s.reqs| then s.reqs[k.last].offset else -1;
    if s.reqs[k.target].offset == offsetLast + 1 then 1 else 10
  }

  /** MarkDone, the counters, and the disk becoming idle. */
  function FinishIO(s: Sim, disk: int): (t: Sim)
    requires Shape(s) && 0 <= disk < DISK_COUNT && !s.disks[disk].state.Idle? && s.disks[disk].op.Some?
    requires var r := s.reqs[s.disks[disk].target];
             s.m.Mirrored? ==> InFlight(r.Get(r.IsFirst(disk)))
  {
    var k := s.disks[disk];
    var op := k.op.value;
    var (r', done) := Complete(s.m, s.reqs[k.target], disk, op);
    s.(reqs := s.reqs[k.target := r'],
       disks := s.disks[disk := k.(state := Idle,
                                   readCount := k.readCount + Flag(op == OpRead),
                                   writeCount := k.writeCount + Flag(op == OpWrite))],
       logical := if done then s.logical + 1 else s.logical,
       window := if done && s.window > 0 then s.window + 1 else s.window,
       count := s.count + 1)
  }

  /** The seeking part of a tick: arrive, or move the head one step. */
  function SeekPart(s: Sim, disk: int): (t: Sim)
    requires Shape(s) && 0 <= disk < DISK_COUNT
    ensures Shape(t) && t == s.(disks := t.disks)
  {
    var k := s.disks[disk];
    if !k.state.Seek? then s
    else if k.y == YPos(s.reqs[k.target].offset) then
      s.(disks := s.disks[disk := k.(state := Xfer, xfer := TransferTime(s, disk))])
    else
      s.(disks := s.disks[disk := k.(y := k.y + k.delta)])
  }

  /** A transferring disk counts down one tick. */
  function CountDown(s: Sim, disk: int): (t: Sim)
    requires Shape(s) && 0 <= disk < DISK_COUNT
    ensures Shape(t)
  {
    s.(disks := s.disks[disk := s.disks[disk].(xfer := s.disks[disk].xfer - 1)])
  }

  // ---------- the invariant ----------

  /** Moves of this speed, starting on row 0, can stop exactly on the row of the offset. */
  predicate RowOk(speed: int, offset: int) { speed >= 1 && 20 * offset % speed == 0 }

  /** Every request lies on such a row. */
  ghost predicate RowsOk(s: Sim) {
    forall i :: 0 <= i < |s.reqs| ==> RowOk(s.speed, s.reqs[i].offset)
  }

  ghost predicate ReqsOk(s: Sim) {
    forall i :: 0 <= i < |s.reqs| ==> ReqOk(s.m, s.reqs[i]) && s.reqs[i].offset == RowOf(s.m, s.reqs[i].logical)
  }

  /** A head stands on the lattice of its speed. */
  ghost predicate HeadOk(speed: int, y: int)
    requires speed >= 1
  {
    (y - 100) % speed == 0
  }

  /** The head is on one of the disk's rows or between two of them. */
  ghost predicate OnDisk(y: int) { 100 <= y <= 480 }

  /** A head on its way to a row is heading for it. */
  ghost predicate Heading(speed: int, y: int, delta: int, offset: int) {
    && OnDisk(y)
    && (y < YPos(offset) ==> delta == speed)
    && (y > YPos(offset) ==> delta == -speed)
  }

  /** The disk is serving an in-flight I/O of its target, moving towards it or standing on it, if its row can be hit. */
  ghost predicate Serving(s: Sim, d: int)
    requires Shape(s) && 0 <= d < DISK_COUNT && !s.disks[d].state.Idle?
  {
    var k := s.disks[d];
    var r := s.reqs[k.target];
    && r.On(d) && Active(s.m, r, r.IsFirst(d))
    && k.op.Some? && r.Get(r.IsFirst(d)) == (if k.op.value == OpRead then DoRead else DoWrite)
    && (k.state.Seek? ==> k.delta == s.speed || k.delta == -s.speed)
    && (k.state.Seek? && RowOk(s.speed, r.offset) ==> Heading(s.speed, k.y, k.delta, r.offset))
    && (k.state.Xfer? ==> k.y == YPos(r.offset) && 1 <= k.xfer <= 10)
  }

  ghost predicate DiskOk(s: Sim, d: int)
    requires Shape(s) && 0 <= d < DISK_COUNT && s.speed >= 1
  {
    HeadOk(s.speed, s.disks[d].y) && if s.disks[d].state.Idle? then OnDisk(s.disks[d].y) else Serving(s, d)
  }

  /** Every in-flight I/O has its disk. */
  ghost predicate Attended(s: Sim, i: int, isFirst: bool)
    requires |s.disks| == DISK_COUNT && 0 <= i < |s.reqs|
  {
    Active(s.m, s.reqs[i], isFirst) ==>
      var d := s.reqs[i].DiskOf(isFirst);
      0 <= d < DISK_COUNT && !s.disks[d].state.Idle? && s.disks[d].target == i
  }

  ghost predicate LinksOk(s: Sim) {
    && Shape(s) && s.speed >= 1
    && (forall d :: 0 <= d < DISK_COUNT ==> DiskOk(s, d))
    && (forall i, e :: 0 <= i < |s.reqs| ==> Attended(s, i, e))
  }

  ghost function PendingIn(m: Mapping): Req -> nat { (r: Req) => Pending(m, r) }

  ghost function LeftIn(m: Mapping): Req -> nat { (r: Req) => Left(m, r) }

  ghost function NeedsIn(m: Mapping): Req -> nat { (r: Req) => Needs(m, r) }

  ghost function Reported(r: Req): nat { r.reports }

  ghost function DiskIOs(s: Sim): int
    requires |s.disks| == DISK_COUNT
  {
    s.disks[0].readCount + s.disks[0].writeCount + s.disks[1].readCount + s.disks[1].writeCount
    + s.disks[2].readCount + s.disks[2].writeCount + s.disks[3].readCount + s.disks[3].writeCount
  }

  /** request_count is what is finished, finished plus pending is all the work, reports are counted once. */
  ghost predicate CountsOk(s: Sim)
    requires |s.disks| == DISK_COUNT
  {
    && s.count + Total(s.reqs, PendingIn(s.m)) == s.work
    && s.count == DiskIOs(s)
    && s.logical == Total(s.reqs, Reported)
    && (s.window == -1 || s.window > s.logical)
  }

  ghost predicate Inv(s: Sim) {
    ReqsOk(s) && LinksOk(s) && CountsOk(s)
  }

  ghost predicate SomeBusy(s: Sim)
    requires |s.disks| == DISK_COUNT
  {
    !s.disks[0].state.Idle? || !s.disks[1].state.Idle? || !s.disks[2].state.Idle? || !s.disks[3].state.Idle?
  }

  /** The goal is right; while the simulation runs some disk is busy; it stops only when all work is done. */
  ghost predicate Live(s: Sim)
    requires |s.disks| == DISK_COUNT
  {
    s.needed == s.work && if s.running then SomeBusy(s) else s.count == s.work
  }

  // ---------- a tick ----------

  ghost predicate Ready(s: Sim, disk: int) {
    Inv(s) && 0 <= disk < DISK_COUNT
  }

  /** What Animate does for one disk. */
  ghost function TickDisk(s: Sim, disk: int): Sim
    requires Ready(s, disk)
  {
    var t := SeekPart(s, disk);
    if !t.disks[disk].state.Xfer? then t
    else
      var u := CountDown(t, disk);
      if u.disks[disk].xfer != 0 then u
      else
        assert DiskOk(s, disk);
        GetNextIOs(FinishIO(u, disk))
  }
}
